/** The threads around the worker queue, as a step relation.

    One lock protects the queue. Workers wait on a condition variable while the queue is
    empty, run the callback with the lock held, and exit once shutdown is flagged.
    Dispatchers store an action under the lock and signal after releasing it; the closing
    thread flags shutdown under the lock and broadcasts after releasing it.

    A callback may look up one key of the configuration, and the lookup opens and closes a
    snapshot of its own for every line it reads, on top of the worker's. `lines` bounds how
    many it reads. */
module WorkerPool {
  import opened Options
  import opened WorkerQueue
  import P = PoolSpec

  datatype WorkerPc = Top | Locking | Checking | Past | Waiting | Exited
    | Running(action: Action, left: nat, nested: bool)

  /** `depth` is the number of snapshots open in the worker's own memory pool. */
  datatype Worker = Worker(pc: WorkerPc, depth: int)

  datatype DispatcherPc = Idle | Holding(action: Action) | Unsignalled

  datatype CloserPc = NotClosing | Flagging | Unbroadcast | Joining | Closed

  datatype Thread = W(i: nat) | D(j: nat) | Closer

  datatype State = State(
    lines: nat,
    workers: seq<Worker>,
    dispatchers: seq<DispatcherPc>,
    closer: CloserPc,
    owner: Option<Thread>,
    queue: seq<Action>,
    shuttingDown: bool,
    dispatched: seq<Action>,
    executed: seq<Action>)

  datatype Step =
    | Save(i: nat)               // a worker opens its snapshot
    | Acquire(i: nat)            // takes the lock, first or after being woken
    | Sleep(i: nat)              // finds nothing to do: releases the lock and waits
    | Pass(i: nat)               // leaves the wait loop
    | WakeSpuriously(i: nat)
    | Exit(i: nat)
    | Continue(i: nat)           // the early continue behind the wait loop
    | Take(i: nat)               // takes the oldest action and enters the callback
    | OpenLine(i: nat)           // the callback opens a snapshot for a configuration line
    | CloseLine(i: nat)
    | Done(i: nat)               // leaves the callback, unlocks, restores
    | DispatchLock(j: nat, action: Action)
    | Store(j: nat)              // stores the action and unlocks
    | Drop(j: nat)               // the queue cannot grow: unlocks, nothing stored
    | Signal(j: nat, woken: Option<nat>)
    | CloseLock
    | Flag                       // sets the flag and unlocks
    | Broadcast
    | Join

  // ---------- enabled steps and their effect ----------

  predicate At(s: State, i: nat, pc: WorkerPc) {
    i < |s.workers| && s.workers[i].pc == pc
  }

  predicate Enabled(s: State, step: Step) {
    match step
    case Save(i) => At(s, i, Top)
    case Acquire(i) => At(s, i, Locking) && s.owner.None?
    case Sleep(i) => At(s, i, Checking) && s.queue == [] && !s.shuttingDown
    case WakeSpuriously(i) => At(s, i, Waiting)
    case Pass(i) => At(s, i, Checking) && (s.queue != [] || s.shuttingDown)
    case Exit(i) => At(s, i, Past) && s.shuttingDown
    case Continue(i) => At(s, i, Past) && !s.shuttingDown && s.queue == []
    case Take(i) => At(s, i, Past) && !s.shuttingDown && s.queue != []
    case OpenLine(i) =>
      i < |s.workers| && s.workers[i].pc.Running? && !s.workers[i].pc.nested && s.workers[i].pc.left > 0
    case CloseLine(i) => i < |s.workers| && s.workers[i].pc.Running? && s.workers[i].pc.nested
    case Done(i) => i < |s.workers| && s.workers[i].pc.Running? && !s.workers[i].pc.nested
    case DispatchLock(j, _) => j < |s.dispatchers| && s.dispatchers[j].Idle? && s.owner.None?
    case Store(j) => j < |s.dispatchers| && s.dispatchers[j].Holding?
    case Drop(j) => j < |s.dispatchers| && s.dispatchers[j].Holding?
    case Signal(j, woken) =>
      && j < |s.dispatchers| && s.dispatchers[j].Unsignalled?
      && if woken.Some? then At(s, woken.value, Waiting) else Asleep(s.workers) == 0
    case CloseLock => s.closer.NotClosing? && s.owner.None?
    case Flag => s.closer.Flagging?
    case Broadcast => s.closer.Unbroadcast?
    case Join => s.closer.Joining? && forall i | 0 <= i < |s.workers| :: s.workers[i].pc.Exited?
  }

  function Moved(s: State, i: nat, pc: WorkerPc): State
    requires i < |s.workers|
  {
    s.(workers := s.workers[i := s.workers[i].(pc := pc)])
  }

  function WakeAll(ws: seq<Worker>): (r: seq<Worker>)
    ensures |r| == |ws|
    ensures forall i | 0 <= i < |ws| :: r[i] == if ws[i].pc.Waiting? then ws[i].(pc := Locking) else ws[i]
  {
    seq(|ws|, i requires 0 <= i < |ws| => if ws[i].pc.Waiting? then ws[i].(pc := Locking) else ws[i])
  }

  function Apply(s: State, step: Step): State
    requires Enabled(s, step)
  {
    match step
    case Save(i) => s.(workers := s.workers[i := Worker(Locking, s.workers[i].depth + 1)])
    case Acquire(i) => Moved(s, i, Checking).(owner := Some(W(i)))
    case Sleep(i) => Moved(s, i, Waiting).(owner := None)
    case WakeSpuriously(i) => Moved(s, i, Locking)
    case Pass(i) => Moved(s, i, Past)
    case Exit(i) => Moved(s, i, Exited).(owner := None)
    case Continue(i) => Moved(s, i, Top).(owner := None)
    case Take(i) =>
      Moved(s, i, Running(s.queue[0], s.lines, false)).(queue := s.queue[1..], executed := s.executed + [s.queue[0]])
    case OpenLine(i) =>
      var w := s.workers[i];
      s.(workers := s.workers[i := Worker(Running(w.pc.action, w.pc.left - 1, true), w.depth + 1)])
    case CloseLine(i) =>
      var w := s.workers[i];
      s.(workers := s.workers[i := Worker(Running(w.pc.action, w.pc.left, false), w.depth - 1)])
    case Done(i) => s.(workers := s.workers[i := Worker(Top, s.workers[i].depth - 1)], owner := None)
    case DispatchLock(j, a) => s.(dispatchers := s.dispatchers[j := Holding(a)], owner := Some(D(j)))
    case Store(j) =>
      var a := s.dispatchers[j].action;
      s.(dispatchers := s.dispatchers[j := Unsignalled], owner := None,
         queue := s.queue + [a], dispatched := s.dispatched + [a])
    case Drop(j) => s.(dispatchers := s.dispatchers[j := Idle], owner := None)
    case Signal(j, woken) =>
      var t := s.(dispatchers := s.dispatchers[j := Idle]);
      if woken.Some? then Moved(t, woken.value, Locking) else t
    case CloseLock => s.(closer := Flagging, owner := Some(Closer))
    case Flag => s.(closer := Unbroadcast, shuttingDown := true, owner := None)
    case Broadcast => s.(closer := Joining, workers := WakeAll(s.workers))
    case Join => s.(closer := Closed)
  }

  // ---------- counting ----------

  function Asleep(ws: seq<Worker>): nat {
    if ws == [] then 0 else Asleep(ws[..|ws| - 1]) + if ws[|ws| - 1].pc.Waiting? then 1 else 0
  }

  /** Workers that will look at the queue again before they wait. */
  function Awake(ws: seq<Worker>): nat {
    if ws == [] then 0
    else Awake(ws[..|ws| - 1]) + if ws[|ws| - 1].pc.Waiting? || ws[|ws| - 1].pc.Exited? then 0 else 1
  }

  /** Dispatchers between their unlock and their signal. */
  function Pending(ds: seq<DispatcherPc>): nat {
    if ds == [] then 0 else Pending(ds[..|ds| - 1]) + if ds[|ds| - 1].Unsignalled? then 1 else 0
  }

  function One(b: bool): nat {
    if b then 1 else 0
  }

  lemma {:induction false} WorkerMoves(ws: seq<Worker>, i: nat, w: Worker)
    requires i < |ws|
    ensures Asleep(ws[i := w]) == Asleep(ws) - One(ws[i].pc.Waiting?) + One(w.pc.Waiting?)
    ensures Awake(ws[i := w])
         == Awake(ws) - One(!ws[i].pc.Waiting? && !ws[i].pc.Exited?) + One(!w.pc.Waiting? && !w.pc.Exited?)
  {
    var n := |ws| - 1;
    if i == n {
      assert ws[i := w][..n] == ws[..n];
    } else {
      WorkerMoves(ws[..n], i, w);
      assert ws[i := w][..n] == ws[..n][i := w];
    }
  }

  lemma {:induction false} DispatcherMoves(ds: seq<DispatcherPc>, j: nat, d: DispatcherPc)
    requires j < |ds|
    ensures Pending(ds[j := d]) == Pending(ds) - One(ds[j].Unsignalled?) + One(d.Unsignalled?)
  {
    var n := |ds| - 1;
    if j == n {
      assert ds[j := d][..n] == ds[..n];
    } else {
      DispatcherMoves(ds[..n], j, d);
      assert ds[j := d][..n] == ds[..n][j := d];
    }
  }

  lemma {:induction false} NoneAsleep(ws: seq<Worker>)
    ensures Asleep(ws) == 0 <==> forall i | 0 <= i < |ws| :: !ws[i].pc.Waiting?
  {
    if ws != [] {
      NoneAsleep(ws[..|ws| - 1]);
      assert forall i | 0 <= i < |ws| - 1 :: ws[..|ws| - 1][i] == ws[i];
    }
  }

  lemma {:induction false} NoneAwake(ws: seq<Worker>)
    requires forall i | 0 <= i < |ws| :: ws[i].pc.Waiting? || ws[i].pc.Exited?
    ensures Awake(ws) == 0
  {
    if ws != [] { NoneAwake(ws[..|ws| - 1]); }
  }

  lemma {:induction false} NonePending(ds: seq<DispatcherPc>)
    requires forall j | 0 <= j < |ds| :: !ds[j].Unsignalled?
    ensures Pending(ds) == 0
  {
    if ds != [] { NonePending(ds[..|ds| - 1]); }
  }

  // ---------- the invariant ----------

  predicate HoldsLock(w: Worker) {
    w.pc.Checking? || w.pc.Past? || w.pc.Running?
  }

  /** How many snapshots are open at a place of the worker's loop. */
  function Depth(pc: WorkerPc): nat {
    match pc
    case Top => 0
    case Running(_, _, nested) => if nested then 2 else 1
    case _ => 1
  }

  predicate WorkerOk(s: State, i: nat)
    requires i < |s.workers|
  {
    var w := s.workers[i];
    && (HoldsLock(w) <==> s.owner == Some(W(i)))
    && w.depth == Depth(w.pc)
    && (w.pc.Exited? ==> s.shuttingDown)
    && (w.pc.Past? ==> s.queue != [] || s.shuttingDown)
  }

  predicate DispatcherOk(s: State, j: nat)
    requires j < |s.dispatchers|
  {
    s.dispatchers[j].Holding? <==> s.owner == Some(D(j))
  }

  /** The lock has at most one holder, the one `owner` names. */
  ghost predicate LockInv(s: State) {
    && (forall i | 0 <= i < |s.workers| :: WorkerOk(s, i))
    && (forall j | 0 <= j < |s.dispatchers| :: DispatcherOk(s, j))
    && (s.closer.Flagging? <==> s.owner == Some(Closer))
    && (s.owner.Some? && s.owner.value.W? ==> s.owner.value.i < |s.workers|)
    && (s.owner.Some? && s.owner.value.D? ==> s.owner.value.j < |s.dispatchers|)
  }

  /** Executed actions followed by queued ones are the stored ones, in order. */
  predicate OrderInv(s: State) {
    s.executed + s.queue == s.dispatched
  }

  /** No wakeup is lost: while some worker sleeps, every queued action is covered by a
      worker that will look again or by a signal still to come. */
  predicate WakeInv(s: State) {
    && (!s.shuttingDown && Asleep(s.workers) > 0 ==> |s.queue| <= Awake(s.workers) + Pending(s.dispatchers))
    && (s.shuttingDown <==> !s.closer.NotClosing? && !s.closer.Flagging?)
    && (s.shuttingDown && Asleep(s.workers) > 0 ==> s.closer.Unbroadcast?)
    && (s.closer.Closed? ==> Awake(s.workers) == 0)
  }

  ghost predicate Inv(s: State) {
    LockInv(s) && OrderInv(s) && WakeInv(s)
  }

  function Init(lines: nat, workers: nat, dispatchers: nat): State {
    State(lines, seq(workers, _ => Worker(Top, 0)), seq(dispatchers, _ => Idle), NotClosing, None, [], false, [], [])
  }

  lemma InitInv(lines: nat, workers: nat, dispatchers: nat)
    ensures Inv(Init(lines, workers, dispatchers))
  {
    NoneAsleep(Init(lines, workers, dispatchers).workers);
  }

  predicate ByWorker(step: Step) {
    || step.Save? || step.Acquire? || step.Sleep? || step.Pass? || step.WakeSpuriously?
    || step.Exit? || step.Continue? || step.Take? || step.Done?
    || step.OpenLine? || step.CloseLine?
  }

  predicate ByDispatcher(step: Step) {
    step.DispatchLock? || step.Store? || step.Drop? || step.Signal?
  }

  /** The early continue behind the wait loop is never taken. */
  lemma NeverContinues(s: State, i: nat)
    requires LockInv(s)
    ensures !Enabled(s, Continue(i))
  {
    if i < |s.workers| { assert WorkerOk(s, i); }
  }

  lemma WorkerLockStep(s: State, step: Step)
    requires LockInv(s) && Enabled(s, step) && ByWorker(step)
    ensures LockInv(Apply(s, step))
  {
    var t := Apply(s, step);
    assert WorkerOk(s, step.i);
    NeverContinues(s, step.i);
    forall i | 0 <= i < |t.workers|
      ensures WorkerOk(t, i)
    {
      assert WorkerOk(s, i);
    }
    forall j | 0 <= j < |t.dispatchers|
      ensures DispatcherOk(t, j)
    {
      assert DispatcherOk(s, j);
    }
  }

  lemma OtherLockStep(s: State, step: Step)
    requires LockInv(s) && Enabled(s, step) && !ByWorker(step)
    ensures LockInv(Apply(s, step))
  {
    var t := Apply(s, step);
    if ByDispatcher(step) {
      assert DispatcherOk(s, step.j);
    }
    forall i | 0 <= i < |t.workers|
      ensures WorkerOk(t, i)
    {
      assert WorkerOk(s, i);
    }
    forall j | 0 <= j < |t.dispatchers|
      ensures DispatcherOk(t, j)
    {
      assert DispatcherOk(s, j);
    }
  }

  lemma LockStep(s: State, step: Step)
    requires LockInv(s) && Enabled(s, step)
    ensures LockInv(Apply(s, step))
  {
    if ByWorker(step) {
      WorkerLockStep(s, step);
    } else {
      OtherLockStep(s, step);
    }
  }

  lemma OrderStep(s: State, step: Step)
    requires Inv(s) && Enabled(s, step)
    ensures OrderInv(Apply(s, step))
  {
  }

  lemma WorkerWakeStep(s: State, step: Step)
    requires Inv(s) && Enabled(s, step) && ByWorker(step)
    ensures WakeInv(Apply(s, step))
  {
    NeverContinues(s, step.i);
    WorkerMoves(s.workers, step.i, Apply(s, step).workers[step.i]);
  }

  lemma DispatcherWakeStep(s: State, step: Step)
    requires Inv(s) && Enabled(s, step) && ByDispatcher(step)
    ensures WakeInv(Apply(s, step))
  {
    var t := Apply(s, step);
    DispatcherMoves(s.dispatchers, step.j, t.dispatchers[step.j]);
    if step.Signal? && step.woken.Some? {
      WorkerMoves(s.workers, step.woken.value, t.workers[step.woken.value]);
    }
  }

  lemma WakeStep(s: State, step: Step)
    requires Inv(s) && Enabled(s, step)
    ensures WakeInv(Apply(s, step))
  {
    if ByWorker(step) {
      WorkerWakeStep(s, step);
    } else if ByDispatcher(step) {
      DispatcherWakeStep(s, step);
    } else if step.Broadcast? {
      NoneAsleep(Apply(s, step).workers);
    } else if step.Join? {
      NoneAwake(s.workers);
    }
  }

  lemma StepInv(s: State, step: Step)
    requires Inv(s) && Enabled(s, step)
    ensures Inv(Apply(s, step))
  {
    LockStep(s, step);
    OrderStep(s, step);
    WakeStep(s, step);
  }

  // ---------- runs ----------

  ghost predicate Legal(s: State, steps: seq<Step>)
    decreases |steps|
  {
    steps == [] || (Enabled(s, steps[0]) && Legal(Apply(s, steps[0]), steps[1..]))
  }

  function Exec(s: State, steps: seq<Step>): State
    requires Legal(s, steps)
    decreases |steps|
  {
    if steps == [] then s else Exec(Apply(s, steps[0]), steps[1..])
  }

  lemma {:induction false} RunInv(s: State, steps: seq<Step>)
    requires Inv(s) && Legal(s, steps)
    ensures Inv(Exec(s, steps))
    decreases |steps|
  {
    if steps != [] {
      StepInv(s, steps[0]);
      RunInv(Apply(s, steps[0]), steps[1..]);
    }
  }

  /** The assertions of the allocator hold of worker i's snapshots. */
  predicate DepthSafe(s: State, i: nat)
    requires i < |s.workers|
  {
    var d := s.workers[i].depth;
    && 0 <= d <= 2
    && (s.workers[i].pc.Top? ==> d == 0)
    && (Enabled(s, Save(i)) || Enabled(s, OpenLine(i)) ==> d < P.MAX_SAVE_DEPTH)
    && (Enabled(s, CloseLine(i)) || Enabled(s, Done(i)) ==> d > 0)
  }

  /** In every interleaving: the actions executed and then those queued are exactly the
      stored ones in order, callbacks exclude each other, the early continue is dead, and a
      pool whose workers all sleep, with no signal outstanding, has an empty queue. No
      worker's memory pool ever holds more than two snapshots and none at the head of the
      loop; every save finds room for one and every restore finds one. */
  lemma EveryRun(lines: nat, workers: nat, dispatchers: nat, steps: seq<Step>)
    requires Legal(Init(lines, workers, dispatchers), steps)
    ensures var s := Exec(Init(lines, workers, dispatchers), steps);
            && s.executed <= s.dispatched && s.queue == s.dispatched[|s.executed|..]
            && (forall i, k | 0 <= i < k < |s.workers| :: !(HoldsLock(s.workers[i]) && HoldsLock(s.workers[k])))
            && (forall i | 0 <= i < |s.workers| :: !Enabled(s, Continue(i)) && DepthSafe(s, i))
            && (!s.shuttingDown && Asleep(s.workers) > 0 ==> |s.queue| <= Awake(s.workers) + Pending(s.dispatchers))
            && (s.closer.Joining? || s.closer.Closed? ==> Asleep(s.workers) == 0)
  {
    InitInv(lines, workers, dispatchers);
    RunInv(Init(lines, workers, dispatchers), steps);
    var s := Exec(Init(lines, workers, dispatchers), steps);
    forall i, k | 0 <= i < k < |s.workers|
      ensures !(HoldsLock(s.workers[i]) && HoldsLock(s.workers[k]))
    {
      assert WorkerOk(s, i) && WorkerOk(s, k);
    }
    forall i | 0 <= i < |s.workers|
      ensures !Enabled(s, Continue(i)) && DepthSafe(s, i)
    {
      assert WorkerOk(s, i);
      NeverContinues(s, i);
    }
  }

  // ---------- what was asked for ----------

  /** The actions that a list of steps asks the queue to take: for every Store, in order, the
      argument of the latest DispatchLock of its dispatcher. */
  function Requested(held: map<nat, Action>, steps: seq<Step>): seq<Action>
    decreases |steps|
  {
    if steps == [] then []
    else
      match steps[0]
      case DispatchLock(j, a) => Requested(held[j := a], steps[1..])
      case Store(j) => (if j in held then [held[j]] else []) + Requested(held, steps[1..])
      case _ => Requested(held, steps[1..])
  }

  /** held names what every dispatcher with the lock has been asked to store. */
  predicate Asked(s: State, held: map<nat, Action>) {
    forall j | 0 <= j < |s.dispatchers| && s.dispatchers[j].Holding? :: j in held && held[j] == s.dispatchers[j].action
  }

  lemma AskedStep(s: State, held: map<nat, Action>, step: Step)
    requires Asked(s, held) && Enabled(s, step)
    ensures Asked(Apply(s, step), Held(held, step))
    ensures Apply(s, step).executed + Apply(s, step).queue == s.executed + s.queue + Stored(held, step)
  {
  }

  /** held after a step. */
  function Held(held: map<nat, Action>, step: Step): map<nat, Action> {
    if step.DispatchLock? then held[step.j := step.action] else held
  }

  /** What a step stores. */
  function Stored(held: map<nat, Action>, step: Step): seq<Action> {
    if step.Store? && step.j in held then [held[step.j]] else []
  }

  lemma RequestedCons(held: map<nat, Action>, steps: seq<Step>)
    requires steps != []
    ensures Requested(held, steps) == Stored(held, steps[0]) + Requested(Held(held, steps[0]), steps[1..])
  {
  }

  lemma {:induction false} RunRequested(s: State, held: map<nat, Action>, steps: seq<Step>)
    requires Legal(s, steps) && Asked(s, held)
    ensures Exec(s, steps).executed + Exec(s, steps).queue == s.executed + s.queue + Requested(held, steps)
    decreases |steps|
  {
    if steps != [] {
      AskedStep(s, held, steps[0]);
      RunRequested(Apply(s, steps[0]), Held(held, steps[0]), steps[1..]);
      RequestedCons(held, steps);
    }
  }

  /** In every run, what has been executed and what is queued are, in order, the actions the
      dispatchers were called with, of those that were stored. */
  lemma EveryRequest(lines: nat, workers: nat, dispatchers: nat, steps: seq<Step>)
    requires Legal(Init(lines, workers, dispatchers), steps)
    ensures var s := Exec(Init(lines, workers, dispatchers), steps);
            s.executed + s.queue == Requested(map[], steps)
  {
    RunRequested(Init(lines, workers, dispatchers), map[], steps);
  }

  /** How often dispatcher j stores, and how often it signals. */
  function Stores(steps: seq<Step>, j: nat): nat {
    if steps == [] then 0 else One(steps[0] == Store(j)) + Stores(steps[1..], j)
  }

  function Signals(steps: seq<Step>, j: nat): nat {
    if steps == [] then 0 else One(steps[0].Signal? && steps[0].j == j) + Signals(steps[1..], j)
  }

  lemma {:induction false} SignalsMatch(s: State, steps: seq<Step>, j: nat)
    requires Legal(s, steps) && j < |s.dispatchers|
    ensures j < |Exec(s, steps).dispatchers|
    ensures One(s.dispatchers[j].Unsignalled?) + Stores(steps, j)
         == Signals(steps, j) + One(Exec(s, steps).dispatchers[j].Unsignalled?)
    decreases |steps|
  {
    if steps != [] {
      SignalsMatch(Apply(s, steps[0]), steps[1..], j);
    }
  }

  /** In every run a dispatcher signals exactly once for every action it has stored, but for
      the last one while it is about to; it does not signal for a dropped one. */
  lemma EverySignal(lines: nat, workers: nat, dispatchers: nat, steps: seq<Step>, j: nat)
    requires Legal(Init(lines, workers, dispatchers), steps) && j < dispatchers
    ensures Signals(steps, j) <= Stores(steps, j) <= Signals(steps, j) + 1
    ensures j < |Exec(Init(lines, workers, dispatchers), steps).dispatchers|
    ensures Stores(steps, j) > Signals(steps, j)
       <==> Exec(Init(lines, workers, dispatchers), steps).dispatchers[j].Unsignalled?
  {
    SignalsMatch(Init(lines, workers, dispatchers), steps, j);
  }

  /** Once shutdown is flagged no worker takes an action any more, however the run goes on:
      what has been executed stays, and what is queued is only added to. */
  lemma {:induction false} NothingAfterShutdown(s: State, steps: seq<Step>)
    requires Legal(s, steps) && s.shuttingDown
    ensures Exec(s, steps).shuttingDown && Exec(s, steps).executed == s.executed && s.queue <= Exec(s, steps).queue
    ensures forall k | 0 <= k < |steps| :: !steps[k].Take?
    decreases |steps|
  {
    if steps != [] {
      NothingAfterShutdown(Apply(s, steps[0]), steps[1..]);
      assert forall k | 0 < k < |steps| :: steps[k] == steps[1..][k - 1];
    }
  }

  // ---------- progress ----------

  /** Steps that bring new work or are the environment's whim. */
  predicate External(step: Step) {
    step.DispatchLock? || step.CloseLock? || step.WakeSpuriously?
  }

  function WorkerRank(pc: WorkerPc): nat {
    match pc
    case Top => 4
    case Locking => 3
    case Checking => 2
    case Past => 1
    case Waiting => 0
    case Running(_, left, nested) => 5 + 2 * left + One(nested)
    case Exited => 0
  }

  function WorkerRanks(ws: seq<Worker>): nat {
    if ws == [] then 0 else WorkerRanks(ws[..|ws| - 1]) + WorkerRank(ws[|ws| - 1].pc)
  }

  function DispatcherRank(d: DispatcherPc, lines: nat): nat {
    match d
    case Idle => 0
    case Holding(_) => 10 + 2 * lines
    case Unsignalled => 4
  }

  function DispatcherRanks(ds: seq<DispatcherPc>, lines: nat): nat {
    if ds == [] then 0 else DispatcherRanks(ds[..|ds| - 1], lines) + DispatcherRank(ds[|ds| - 1], lines)
  }

  function CloserRank(s: State): nat {
    match s.closer
    case NotClosing => 0
    case Flagging => 3 * |s.workers| + 3
    case Unbroadcast => 3 * |s.workers| + 2
    case Joining => 1
    case Closed => 0
  }

  /** The steps that n queued actions still cause. */
  function QueueRank(n: nat, lines: nat): nat {
    if n == 0 then 0 else QueueRank(n - 1, lines) + 5 + 2 * lines
  }

  function Rank(s: State): nat {
    QueueRank(|s.queue|, s.lines) + WorkerRanks(s.workers) + DispatcherRanks(s.dispatchers, s.lines) + CloserRank(s)
  }

  lemma {:induction false} WorkerRankMoves(ws: seq<Worker>, i: nat, w: Worker)
    requires i < |ws|
    ensures WorkerRanks(ws[i := w]) == WorkerRanks(ws) - WorkerRank(ws[i].pc) + WorkerRank(w.pc)
  {
    var n := |ws| - 1;
    if i == n {
      assert ws[i := w][..n] == ws[..n];
    } else {
      WorkerRankMoves(ws[..n], i, w);
      assert ws[i := w][..n] == ws[..n][i := w];
    }
  }

  lemma {:induction false} DispatcherRankMoves(ds: seq<DispatcherPc>, j: nat, d: DispatcherPc, lines: nat)
    requires j < |ds|
    ensures DispatcherRanks(ds[j := d], lines)
         == DispatcherRanks(ds, lines) - DispatcherRank(ds[j], lines) + DispatcherRank(d, lines)
  {
    var n := |ds| - 1;
    if j == n {
      assert ds[j := d][..n] == ds[..n];
    } else {
      DispatcherRankMoves(ds[..n], j, d, lines);
      assert ds[j := d][..n] == ds[..n][j := d];
    }
  }

  lemma {:induction false} WakeAllRank(ws: seq<Worker>)
    ensures WorkerRanks(WakeAll(ws)) <= WorkerRanks(ws) + 3 * |ws|
  {
    if ws != [] {
      var n := |ws| - 1;
      WakeAllRank(ws[..n]);
      assert WakeAll(ws)[..n] == WakeAll(ws[..n]);
    }
  }

  /** A worker's step lowers its own rank, or turns a queued action into a running one. */
  lemma WorkerStepRanks(s: State, step: Step)
    requires LockInv(s) && Enabled(s, step) && !External(step) && ByWorker(step)
    ensures Rank(Apply(s, step)) < Rank(s)
  {
    NeverContinues(s, step.i);
    var t := Apply(s, step);
    WorkerRankMoves(s.workers, step.i, t.workers[step.i]);
    assert WorkerRank(t.workers[step.i].pc) < WorkerRank(s.workers[step.i].pc) || step.Take?;
  }

  lemma DispatcherStepRanks(s: State, step: Step)
    requires Inv(s) && Enabled(s, step) && !External(step) && ByDispatcher(step)
    ensures Rank(Apply(s, step)) < Rank(s)
  {
    var t := Apply(s, step);
    DispatcherRankMoves(s.dispatchers, step.j, t.dispatchers[step.j], s.lines);
    if step.Signal? && step.woken.Some? {
      WorkerRankMoves(s.workers, step.woken.value, t.workers[step.woken.value]);
    }
  }

  /** Every other step brings the pool closer to rest. */
  lemma StepRanks(s: State, step: Step)
    requires Inv(s) && Enabled(s, step) && !External(step)
    ensures Rank(Apply(s, step)) < Rank(s)
  {
    if ByWorker(step) {
      WorkerStepRanks(s, step);
    } else if ByDispatcher(step) {
      DispatcherStepRanks(s, step);
    } else {
      WakeAllRank(s.workers);
    }
  }

  /** The pool rests when only the environment can move. */
  ghost predicate AtRest(s: State) {
    forall step: Step :: Enabled(s, step) ==> External(step)
  }

  /** A pool at rest has done its work: every worker sleeps over an empty queue, or
      shutdown is complete and every worker has exited. */
  lemma RestMeansDone(s: State)
    requires Inv(s) && AtRest(s)
    ensures if s.shuttingDown
            then s.closer.Closed? && forall i | 0 <= i < |s.workers| :: s.workers[i].pc.Exited?
            else (forall i | 0 <= i < |s.workers| :: s.workers[i].pc.Waiting?) && (|s.workers| > 0 ==> s.queue == [])
  {
    forall j | 0 <= j < |s.dispatchers|
      ensures s.dispatchers[j].Idle?
    {
      DispatcherAtRest(s, j);
    }
    assert !Enabled(s, Flag) && !Enabled(s, Broadcast) && !Enabled(s, Join);
    LockIsFree(s);
    forall i | 0 <= i < |s.workers|
      ensures s.workers[i].pc.Waiting? || s.workers[i].pc.Exited?
    {
      WorkerAtRest(s, i);
    }
    NonePending(s.dispatchers);
    NoneAwake(s.workers);
    NoneAsleep(s.workers);
    forall i | 0 <= i < |s.workers|
      ensures s.workers[i].pc.Exited? ==> s.shuttingDown
    {
      assert WorkerOk(s, i);
    }
  }

  lemma DispatcherAtRest(s: State, j: nat)
    requires AtRest(s) && j < |s.dispatchers|
    ensures s.dispatchers[j].Idle?
  {
    assert !Enabled(s, Store(j)) && !Enabled(s, Signal(j, None));
    forall i | 0 <= i < |s.workers|
      ensures s.dispatchers[j].Unsignalled? ==> !s.workers[i].pc.Waiting?
    {
      assert !Enabled(s, Signal(j, Some(i)));
    }
    NoneAsleep(s.workers);
  }

  /** Whoever holds the lock can move. */
  lemma HolderCanMove(s: State) returns (step: Step)
    requires LockInv(s) && s.owner.Some?
    ensures Enabled(s, step) && !External(step)
  {
    match s.owner.value
    case W(k) =>
      assert WorkerOk(s, k);
      step := WorkerMove(s, k);
    case D(j) =>
      assert DispatcherOk(s, j);
      step := Store(j);
    case Closer => step := Flag;
  }

  lemma WorkerMove(s: State, k: nat) returns (step: Step)
    requires k < |s.workers| && WorkerOk(s, k) && HoldsLock(s.workers[k])
    ensures Enabled(s, step) && !External(step)
  {
    var pc := s.workers[k].pc;
    if pc.Checking? {
      step := if s.queue == [] && !s.shuttingDown then Sleep(k) else Pass(k);
    } else if pc.Past? {
      step := if s.shuttingDown then Exit(k) else Take(k);
    } else {
      step := if pc.nested then CloseLine(k) else Done(k);
    }
  }

  lemma LockIsFree(s: State)
    requires LockInv(s)
    ensures AtRest(s) ==> s.owner.None?
  {
    if s.owner.Some? {
      var step := HolderCanMove(s);
    }
  }

  lemma WorkerAtRest(s: State, i: nat)
    requires LockInv(s) && i < |s.workers| && s.owner.None?
    ensures AtRest(s) ==> s.workers[i].pc.Waiting? || s.workers[i].pc.Exited?
  {
    assert WorkerOk(s, i);
    if AtRest(s) {
      assert !Enabled(s, Save(i)) && !Enabled(s, Acquire(i));
    }
  }

  /** Any run without external steps is no longer than the rank of its first state. */
  lemma {:induction false} WorkIsBounded(s: State, steps: seq<Step>)
    requires Inv(s) && Legal(s, steps) && forall k | 0 <= k < |steps| :: !External(steps[k])
    ensures Inv(Exec(s, steps)) && |steps| + Rank(Exec(s, steps)) <= Rank(s)
    decreases |steps|
  {
    if steps != [] {
      StepInv(s, steps[0]);
      StepRanks(s, steps[0]);
      WorkIsBounded(Apply(s, steps[0]), steps[1..]);
    }
  }

  /** From every reachable state, once nothing new arrives, the pool comes to rest within a
      bounded number of steps whatever the schedule, and then no stored action is left
      behind: every worker sleeps and all that was stored has run, or, after shutdown,
      every worker has exited and what has run is a prefix of what was stored. */
  lemma EveryRunDrains(lines: nat, workers: nat, dispatchers: nat, before: seq<Step>, steps: seq<Step>)
    requires Legal(Init(lines, workers, dispatchers), before)
    requires Legal(Exec(Init(lines, workers, dispatchers), before), steps)
    requires forall k | 0 <= k < |steps| :: !External(steps[k])
    ensures var s := Exec(Init(lines, workers, dispatchers), before);
            var t := Exec(s, steps);
            && |steps| <= Rank(s)
            && (AtRest(t) && !t.shuttingDown && |t.workers| > 0 ==> t.executed == t.dispatched)
            && (AtRest(t) && t.shuttingDown ==> && t.executed <= t.dispatched
                                                && forall i | 0 <= i < |t.workers| :: t.workers[i].pc.Exited?)
  {
    InitInv(lines, workers, dispatchers);
    RunInv(Init(lines, workers, dispatchers), before);
    var s := Exec(Init(lines, workers, dispatchers), before);
    WorkIsBounded(s, steps);
    var t := Exec(s, steps);
    if AtRest(t) {
      RestMeansDone(t);
    }
  }
}
