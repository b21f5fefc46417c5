/** Why one worker stands for all of them in Slots: what the worker pool's queue and its
    running callback look like to the slots.

    A queued action carries a client record; `client` reads it. */
module SlotsOnPool {
  import opened Options
  import opened WorkerQueue
  import P = WorkerPool
  import S = Slots

  function Clients(queue: seq<Action>, client: Action -> S.Copy): (r: seq<S.Copy>)
    ensures |r| == |queue| && forall i | 0 <= i < |queue| :: r[i] == client(queue[i])
  {
    seq(|queue|, i requires 0 <= i < |queue| => client(queue[i]))
  }

  /** Worker i runs a callback. */
  predicate Runs(s: P.State, i: nat) {
    i < |s.workers| && s.workers[i].pc.Running?
  }

  /** The job some worker runs, or none. */
  ghost function Job(s: P.State): Option<Action> {
    if exists i: nat :: Runs(s, i) then
      var i: nat :| Runs(s, i);
      Some(s.workers[i].pc.action)
    else None
  }

  /** One callback runs at a time, so the job is that of whoever runs. */
  lemma OneRuns(s: P.State, i: nat, k: nat)
    requires P.LockInv(s) && Runs(s, i) && Runs(s, k)
    ensures i == k
  {
    assert P.WorkerOk(s, i) && P.WorkerOk(s, k);
  }

  lemma JobIs(s: P.State, i: nat)
    requires P.LockInv(s) && Runs(s, i)
    ensures Job(s) == Some(s.workers[i].pc.action)
  {
    var k: nat :| Runs(s, k) && Job(s) == Some(s.workers[k].pc.action);
    OneRuns(s, i, k);
  }

  lemma NoJobIs(s: P.State)
    requires forall i: nat :: !Runs(s, i)
    ensures Job(s) == None
  {
  }

  /** While a callback runs, no other worker takes an action and none is stored. */
  lemma OthersWait(s: P.State, i: nat, step: P.Step)
    requires P.LockInv(s) && Runs(s, i) && P.Enabled(s, step)
    ensures !step.Take? && !step.Store? && (step.Done? ==> step.i == i)
  {
    assert P.WorkerOk(s, i);
    assert step.Take? || step.Done? ==> P.WorkerOk(s, step.i);
    assert step.Store? ==> P.DispatcherOk(s, step.j);
  }

  /** A step of any thread is, for the slots, one of three things or nothing: an action is
      stored behind the others while no job runs; the oldest one becomes the job, if there
      was none; the job ends. */
  predicate Projects(s: P.State, step: P.Step, t: P.State, client: Action -> S.Copy,
                     job: Option<Action>, job': Option<Action>)
    requires P.Enabled(s, step)
  {
    var queue, queue' := Clients(s.queue, client), Clients(t.queue, client);
    match step
    case Store(j) => job == job' == None && queue' == queue + [client(s.dispatchers[j].action)]
    case Take(_) => job == None && queue != [] && queue' == queue[1..] && job' == Some(s.queue[0])
    case Done(_) => job.Some? && job' == None && queue' == queue
    case _ => job' == job && queue' == queue
  }

  lemma StepProjects(s: P.State, step: P.Step, client: Action -> S.Copy)
    requires P.Inv(s) && P.Enabled(s, step)
    ensures Projects(s, step, P.Apply(s, step), client, Job(s), Job(P.Apply(s, step)))
  {
    var t := P.Apply(s, step);
    P.StepInv(s, step);
    if i: nat :| Runs(s, i) {
      JobIs(s, i);
      OthersWait(s, i, step);
      if step.Done? {
        NobodyElse(s, i, t);
        NoJobIs(t);
      } else {
        assert Runs(t, i) && t.workers[i].pc.action == s.workers[i].pc.action;
        JobIs(t, i);
      }
    } else {
      NoJobIs(s);
      assert step.Done? ==> Runs(s, step.i);
      if step.Take? {
        assert Runs(t, step.i);
        JobIs(t, step.i);
      } else {
        NoneStarts(s, step);
        NoJobIs(t);
      }
    }
  }

  lemma NobodyElse(s: P.State, i: nat, t: P.State)
    requires P.LockInv(s) && Runs(s, i) && t.workers == s.workers[i := P.Worker(P.Top, s.workers[i].depth - 1)]
    ensures forall k: nat :: !Runs(t, k)
  {
    forall k: nat
      ensures !Runs(t, k)
    {
      if Runs(s, k) { OneRuns(s, i, k); }
    }
  }

  lemma NoneStarts(s: P.State, step: P.Step)
    requires P.Enabled(s, step) && !step.Take? && forall k: nat :: !Runs(s, k)
    ensures forall k: nat :: !Runs(P.Apply(s, step), k)
  {
    var t := P.Apply(s, step);
    forall k: nat
      ensures !Runs(t, k)
    {
      assert !Runs(s, k);
    }
  }

  /** Queue and worker of the slots are those of the pool. */
  ghost predicate Agrees(s: P.State, z: S.State, client: Action -> S.Copy) {
    && z.queue == Clients(s.queue, client)
    && (z.worker.NoJob? <==> Job(s).None?)
    && (!z.worker.NoJob? ==> z.worker.client == client(Job(s).value))
  }

  /** They stay so when a worker takes an action, when one is stored and when a callback ends,
      which for the slots are the steps Take, Enqueue and Clear. */
  lemma StepAgrees(s: P.State, step: P.Step, z: S.State, move: S.Step, client: Action -> S.Copy)
    requires P.Inv(s) && P.Enabled(s, step) && S.Enabled(z, move) && Agrees(s, z, client)
    requires || (step.Take? && move.Take?)
             || (step.Store? && move.Enqueue? && S.CopyOf(z, z.batch[0]) == client(s.dispatchers[step.j].action))
             || (step.Done? && move.Clear?)
    ensures Agrees(P.Apply(s, step), S.Apply(z, move), client)
  {
    StepProjects(s, step, client);
  }
}
