/**
 What every step of the thread pool keeps, and what follows for whole runs:
 mutual exclusion, first-in first-out, the bound on the queue, no lost wakeup,
 nothing accepted after stop, and every accepted task run exactly once.
 */
module ThreadPoolSafety {
  import opened Wrappers
  import opened Sums
  import opened ThreadPool

  predicate WorkerHolds(p: Worker) {
    p == Checking || p == Ready || p.Notifying? || p.Unlocking?
  }

  predicate ClientHolds(c: Client) {
    c.phase == Testing || c.phase == Admitted || c.phase == Leaving
  }

  predicate DestructorHolds(d: Destructor) {
    d == Stopping || d == Releasing
  }

  /** The mutex is held by exactly the thread that is inside its critical section. */
  ghost predicate Mutex(s: State) {
    && (forall w :: 0 <= w < |s.workers| ==> (WorkerHolds(s.workers[w]) <==> s.lock == ByWorker(w)))
    && (forall c :: 0 <= c < |s.clients| ==> (ClientHolds(s.clients[c]) <==> s.lock == ByClient(c)))
    && (DestructorHolds(s.destructor) <==> s.lock == ByDestructor)
    && (s.lock.ByWorker? ==> s.lock.w < |s.workers|)
    && (s.lock.ByClient? ==> s.lock.c < |s.clients|)
  }

  /** A condition waited for still holds while the waiter keeps the mutex. */
  ghost predicate Granted(s: State) {
    && (forall w :: 0 <= w < |s.workers| && s.workers[w] == Ready ==> s.stop || s.tasks != [])
    && (forall c :: 0 <= c < |s.clients| && s.clients[c].phase == Admitted ==> s.stop || |s.tasks| <= s.max)
    && (forall c :: 0 <= c < |s.clients| && s.clients[c].phase !in {Idle, Leaving, Owing} ==> s.clients[c].calls != [])
  }

  predicate Stopped(d: Destructor) {
    d == Releasing || d == WakingWorkers || d == WakingClients || d.Joining?
  }

  ghost predicate Queue(s: State) {
    && s.accepted == s.taken + s.tasks
    && |s.tasks| <= s.max + 1
    && |s.workers| > 0
    && (s.stop <==> Stopped(s.destructor))
    && (s.rejected != multiset{} ==> s.stop)
    && (forall w :: 0 <= w < |s.workers| && s.workers[w] == Returned ==> s.stop && s.tasks == [])
    && (s.destructor.Joining? ==> s.destructor.joined <= |s.workers|)
    && (s.destructor.Joining? ==> forall w :: 0 <= w < s.destructor.joined ==> s.workers[w] == Returned)
  }

  // ---------- Wakeups ----------

  /** Workers that are going to look at the queue again before they sleep. */
  function Alert(p: Worker): nat {
    if p == Woken || p == Checking || p == Ready then 1 else 0
  }

  /** Clients that still owe a notification of task_condition. */
  function OwesTask(c: Client): nat {
    if c.phase == Leaving || c.phase == Owing then 1 else 0
  }

  function AlertClient(c: Client): nat {
    if c.phase == Roused || c.phase == Testing || c.phase == Admitted then 1 else 0
  }

  /** Workers that still owe a notification of enqueue_condition. */
  function OwesRoom(p: Worker): nat {
    if p.Notifying? then 1 else 0
  }

  ghost predicate SomeAsleep(s: State) {
    exists w :: 0 <= w < |s.workers| && s.workers[w] == Asleep
  }

  ghost predicate SomeBlocked(s: State) {
    exists c :: 0 <= c < |s.clients| && s.clients[c].phase == Blocked
  }

  /** While a worker sleeps, every queued task has a wakeup on its way. */
  ghost predicate TasksAnnounced(s: State) {
    SomeAsleep(s) ==> |s.tasks| <= Sum(s.workers, Alert) + Sum(s.clients, OwesTask)
  }

  /** While a client is blocked, every free place has a wakeup on its way. */
  ghost predicate RoomAnnounced(s: State) {
    !s.stop && SomeBlocked(s) ==> s.max + 1 <= |s.tasks| + Sum(s.clients, AlertClient) + Sum(s.workers, OwesRoom)
  }

  /** After stop, a sleeper still has its notify_all coming. */
  ghost predicate StopAnnounced(s: State) {
    && (s.stop && SomeAsleep(s) ==> s.destructor in {Releasing, WakingWorkers})
    && (s.stop && SomeBlocked(s) ==> s.destructor in {Releasing, WakingWorkers, WakingClients})
  }

  // ---------- Execution ----------

  /** Whether a worker has task t in its hands: popped, but not yet run to completion. */
  function Holding(t: Task): Worker -> nat {
    (p: Worker) => if p == Notifying(t) || p == Unlocking(t) || p == Running(t) then 1 else 0
  }

  /** Every task popped has run or is in a worker's hands, once for each time it was popped. */
  ghost predicate Executed(s: State) {
    forall t :: ExecutedOnce(s, t)
  }

  ghost predicate ExecutedOnce(s: State, t: Task) {
    multiset(s.taken)[t] == s.ran[t] + Sum(s.workers, Holding(t))
  }

  ghost predicate Inv(s: State) {
    Mutex(s) && Granted(s) && Queue(s) && TasksAnnounced(s) && RoomAnnounced(s) && StopAnnounced(s) && Executed(s)
  }

  // ---------- Each step keeps each part ----------

  lemma WorkerKeepsMutex(s: State, w: nat, act: WorkerAct)
    requires Mutex(s) && WorkerCan(s, w, act)
    ensures Mutex(WorkerDo(s, w, act))
  {
  }

  lemma ClientKeepsMutex(s: State, c: nat, act: ClientAct)
    requires Mutex(s) && ClientCan(s, c, act)
    ensures Mutex(ClientDo(s, c, act))
  {
    if act.NotifyTask? {
      NotifyKeepsMutex(s, c, act.target);
    }
  }

  lemma NotifyKeepsMutex(s: State, c: nat, target: Option<nat>)
    requires Mutex(s) && ClientCan(s, c, NotifyTask(target))
    ensures Mutex(ClientDo(s, c, NotifyTask(target)))
  {
  }

  lemma DestructorKeepsMutex(s: State, act: DestructorAct)
    requires Mutex(s) && DestructorCan(s, act)
    ensures Mutex(DestructorDo(s, act))
  {
  }

  lemma WorkerKeepsGranted(s: State, w: nat, act: WorkerAct)
    requires Mutex(s) && Granted(s) && WorkerCan(s, w, act)
    ensures Granted(WorkerDo(s, w, act))
  {
  }

  lemma ClientKeepsGranted(s: State, c: nat, act: ClientAct)
    requires Mutex(s) && Granted(s) && ClientCan(s, c, act)
    ensures Granted(ClientDo(s, c, act))
  {
  }

  lemma DestructorKeepsGranted(s: State, act: DestructorAct)
    requires Mutex(s) && Granted(s) && DestructorCan(s, act)
    ensures Granted(DestructorDo(s, act))
  {
  }

  lemma WorkerKeepsQueue(s: State, w: nat, act: WorkerAct)
    requires Mutex(s) && Granted(s) && Queue(s) && WorkerCan(s, w, act)
    ensures Queue(WorkerDo(s, w, act))
  {
  }

  lemma ClientKeepsQueue(s: State, c: nat, act: ClientAct)
    requires Mutex(s) && Granted(s) && Queue(s) && ClientCan(s, c, act)
    ensures Queue(ClientDo(s, c, act))
  {
  }

  lemma DestructorKeepsQueue(s: State, act: DestructorAct)
    requires Mutex(s) && Granted(s) && Queue(s) && DestructorCan(s, act)
    ensures Queue(DestructorDo(s, act))
  {
  }

  lemma StepKeepsQueue(s: State, step: Step)
    requires Mutex(s) && Granted(s) && Queue(s) && Enabled(s, step)
    ensures var s' := Do(s, step); Mutex(s') && Granted(s') && Queue(s')
  {
    match step
    case WorkerStep(w, act) =>
      WorkerKeepsMutex(s, w, act);
      WorkerKeepsGranted(s, w, act);
      WorkerKeepsQueue(s, w, act);
    case ClientStep(c, act) =>
      ClientKeepsMutex(s, c, act);
      ClientKeepsGranted(s, c, act);
      ClientKeepsQueue(s, c, act);
    case DestructorStep(act) =>
      DestructorKeepsMutex(s, act);
      DestructorKeepsGranted(s, act);
      DestructorKeepsQueue(s, act);
  }

  // ---------- No wakeup is lost ----------

  lemma WorkerMoves(s: State, w: nat, act: WorkerAct)
    requires WorkerCan(s, w, act)
    ensures var s' := WorkerDo(s, w, act); |s'.workers| == |s.workers| && s'.workers == s.workers[w := s'.workers[w]]
  {
  }

  lemma WorkerRouses(s: State, w: nat, act: WorkerAct)
    requires WorkerCan(s, w, act)
    ensures Sum(WorkerDo(s, w, act).clients, OwesTask) == Sum(s.clients, OwesTask)
    ensures Sum(WorkerDo(s, w, act).clients, AlertClient)
         == Sum(s.clients, AlertClient) + (if act.NotifyRoom? && act.target.Some? then 1 else 0)
  {
    if act.NotifyRoom? && act.target.Some? {
      var c := act.target.value;
      SumUpdate(s.clients, c, s.clients[c].(phase := Roused), OwesTask);
      SumUpdate(s.clients, c, s.clients[c].(phase := Roused), AlertClient);
    }
  }

  /** How one step changes the four counts that the wakeup invariants are about. */
  lemma WorkerChangesCounts(s: State, w: nat, act: WorkerAct)
    requires WorkerCan(s, w, act)
    ensures var s' := WorkerDo(s, w, act);
      && |s'.workers| == |s.workers|
      && Sum(s'.workers, Alert) + Alert(s.workers[w]) == Sum(s.workers, Alert) + Alert(s'.workers[w])
      && Sum(s'.workers, OwesRoom) + OwesRoom(s.workers[w]) == Sum(s.workers, OwesRoom) + OwesRoom(s'.workers[w])
      && Sum(s'.clients, OwesTask) == Sum(s.clients, OwesTask)
      && Sum(s'.clients, AlertClient)
         == Sum(s.clients, AlertClient) + (if act.NotifyRoom? && act.target.Some? then 1 else 0)
  {
    var p := WorkerDo(s, w, act).workers[w];
    WorkerMoves(s, w, act);
    WorkerRouses(s, w, act);
    SumUpdate(s.workers, w, p, Alert);
    SumUpdate(s.workers, w, p, OwesRoom);
  }

  lemma ClientChangesCounts(s: State, c: nat, act: ClientAct)
    requires ClientCan(s, c, act)
    ensures var s' := ClientDo(s, c, act);
      && |s'.clients| == |s.clients|
      && Sum(s'.clients, OwesTask) + OwesTask(s.clients[c]) == Sum(s.clients, OwesTask) + OwesTask(s'.clients[c])
      && Sum(s'.clients, AlertClient) + AlertClient(s.clients[c])
         == Sum(s.clients, AlertClient) + AlertClient(s'.clients[c])
      && Sum(s'.workers, OwesRoom) == Sum(s.workers, OwesRoom)
      && Sum(s'.workers, Alert) == Sum(s.workers, Alert) + (if act.NotifyTask? && act.target.Some? then 1 else 0)
  {
    var s' := ClientDo(s, c, act);
    assert s'.clients == s.clients[c := s'.clients[c]];
    SumUpdate(s.clients, c, s'.clients[c], OwesTask);
    SumUpdate(s.clients, c, s'.clients[c], AlertClient);
    if act.NotifyTask? && act.target.Some? {
      SumUpdate(s.workers, act.target.value, Woken, Alert);
      SumUpdate(s.workers, act.target.value, Woken, OwesRoom);
    }
  }

  /** A worker falls asleep only when there is nothing to do; the last sleeper leaves when none is found to notify. */
  lemma Sleepers(s: State, step: Step)
    requires Enabled(s, step) && SomeAsleep(Do(s, step))
    ensures SomeAsleep(s) || (step.WorkerStep? && step.worker.Check? && s.tasks == [] && !s.stop)
    ensures step != DestructorStep(WakeWorkers)
    ensures step.ClientStep? && step.client.NotifyTask? ==> step.client.target.Some?
  {
    var s' := Do(s, step);
    var v :| 0 <= v < |s'.workers| && s'.workers[v] == Asleep;
    if s.workers[v] != Asleep {
      assert step.WorkerStep? && step.w == v;
    }
  }

  lemma Blockers(s: State, step: Step)
    requires Enabled(s, step) && SomeBlocked(Do(s, step))
    ensures SomeBlocked(s) || (step.ClientStep? && step.client.Test? && |s.tasks| > s.max && !s.stop)
    ensures step != DestructorStep(WakeClients)
    ensures step.WorkerStep? && step.worker.NotifyRoom? ==> step.worker.target.Some?
  {
    var s' := Do(s, step);
    var v :| 0 <= v < |s'.clients| && s'.clients[v].phase == Blocked;
    if s.clients[v].phase != Blocked {
      assert step.ClientStep? && step.c == v;
    }
  }

  lemma WorkerKeepsTasksAnnounced(s: State, w: nat, act: WorkerAct)
    requires Granted(s) && TasksAnnounced(s) && WorkerCan(s, w, act) && SomeAsleep(WorkerDo(s, w, act))
    ensures TasksAnnounced(WorkerDo(s, w, act))
  {
    Sleepers(s, WorkerStep(w, act));
    WorkerChangesCounts(s, w, act);
  }

  lemma ClientKeepsTasksAnnounced(s: State, c: nat, act: ClientAct)
    requires TasksAnnounced(s) && ClientCan(s, c, act) && SomeAsleep(ClientDo(s, c, act))
    ensures TasksAnnounced(ClientDo(s, c, act))
  {
    Sleepers(s, ClientStep(c, act));
    ClientChangesCounts(s, c, act);
  }

  lemma StepKeepsTasksAnnounced(s: State, step: Step)
    requires Granted(s) && TasksAnnounced(s) && Enabled(s, step)
    ensures TasksAnnounced(Do(s, step))
  {
    if SomeAsleep(Do(s, step)) {
      match step
      case WorkerStep(w, act) => WorkerKeepsTasksAnnounced(s, w, act);
      case ClientStep(c, act) => ClientKeepsTasksAnnounced(s, c, act);
      case DestructorStep(act) =>
        Sleepers(s, step);
        SumGrowth(AllClientsRoused(s.clients), s.clients, OwesTask, 0);
    }
  }

  lemma WorkerKeepsRoomAnnounced(s: State, w: nat, act: WorkerAct)
    requires Granted(s) && RoomAnnounced(s) && WorkerCan(s, w, act) && SomeBlocked(WorkerDo(s, w, act))
    ensures RoomAnnounced(WorkerDo(s, w, act))
  {
    Blockers(s, WorkerStep(w, act));
    WorkerChangesCounts(s, w, act);
  }

  lemma ClientKeepsRoomAnnounced(s: State, c: nat, act: ClientAct)
    requires Granted(s) && RoomAnnounced(s) && ClientCan(s, c, act) && SomeBlocked(ClientDo(s, c, act))
    ensures RoomAnnounced(ClientDo(s, c, act))
  {
    Blockers(s, ClientStep(c, act));
    ClientChangesCounts(s, c, act);
  }

  lemma StepKeepsRoomAnnounced(s: State, step: Step)
    requires Granted(s) && Queue(s) && RoomAnnounced(s) && Enabled(s, step)
    ensures RoomAnnounced(Do(s, step))
  {
    if SomeBlocked(Do(s, step)) {
      match step
      case WorkerStep(w, act) => WorkerKeepsRoomAnnounced(s, w, act);
      case ClientStep(c, act) => ClientKeepsRoomAnnounced(s, c, act);
      case DestructorStep(act) => Blockers(s, step);
    }
  }

  lemma StepKeepsStopAnnounced(s: State, step: Step)
    requires Queue(s) && StopAnnounced(s) && Enabled(s, step)
    ensures StopAnnounced(Do(s, step))
  {
    if SomeAsleep(Do(s, step)) {
      Sleepers(s, step);
    }
    if SomeBlocked(Do(s, step)) {
      Blockers(s, step);
    }
  }

  // ---------- Exactly once ----------

  /** A task enters a worker's hands when it is popped, and leaves them when it has run. */
  lemma WorkerPopsOrRuns(s: State, w: nat, act: WorkerAct, t: Task)
    requires Granted(s) && WorkerCan(s, w, act)
    ensures w < |WorkerDo(s, w, act).workers|
    ensures var s' := WorkerDo(s, w, act);
      (multiset(s'.taken)[t] + s.ran[t] + Holding(t)(s.workers[w])
        == multiset(s.taken)[t] + s'.ran[t] + Holding(t)(s'.workers[w]))
  {
    if act.Proceed? && s.tasks != [] {
      assert multiset(s.taken + [s.tasks[0]])[t] == multiset(s.taken)[t] + multiset{s.tasks[0]}[t];
    } else if act.Run? {
      assert (s.ran + multiset{s.workers[w].task})[t] == s.ran[t] + multiset{s.workers[w].task}[t];
    }
  }

  lemma WorkerKeepsExecuted(s: State, w: nat, act: WorkerAct, t: Task)
    requires Granted(s) && ExecutedOnce(s, t) && WorkerCan(s, w, act)
    ensures ExecutedOnce(WorkerDo(s, w, act), t)
  {
    WorkerMoves(s, w, act);
    WorkerPopsOrRuns(s, w, act, t);
    SumUpdate(s.workers, w, WorkerDo(s, w, act).workers[w], Holding(t));
  }

  lemma OthersKeepExecuted(s: State, step: Step, t: Task)
    requires ExecutedOnce(s, t) && Enabled(s, step) && !step.WorkerStep?
    ensures ExecutedOnce(Do(s, step), t)
  {
    var ws, ws', held := s.workers, Do(s, step).workers, Holding(t);
    OthersOnlyWake(s, step);
    SumGrowth(ws, ws', held, 0);
    SumGrowth(ws', ws, held, 0);
  }

  lemma OthersOnlyWake(s: State, step: Step)
    requires Enabled(s, step) && !step.WorkerStep?
    ensures var s' := Do(s, step);
      && s'.taken == s.taken && s'.ran == s.ran && |s'.workers| == |s.workers|
      && forall w :: 0 <= w < |s.workers| ==>
        s'.workers[w] == s.workers[w] || (s.workers[w] == Asleep && s'.workers[w] == Woken)
  {
  }

  lemma StepKeepsExecuted(s: State, step: Step)
    requires Granted(s) && Executed(s) && Enabled(s, step)
    ensures Executed(Do(s, step))
  {
    forall t
      ensures ExecutedOnce(Do(s, step), t)
    {
      if step.WorkerStep? {
        WorkerKeepsExecuted(s, step.w, step.worker, t);
      } else {
        OthersKeepExecuted(s, step, t);
      }
    }
  }

  /** The invariant of the thread pool. */
  lemma StepKeepsInv(s: State, step: Step)
    requires Inv(s) && Enabled(s, step)
    ensures Inv(Do(s, step))
  {
    StepKeepsQueue(s, step);
    StepKeepsTasksAnnounced(s, step);
    StepKeepsRoomAnnounced(s, step);
    StepKeepsStopAnnounced(s, step);
    StepKeepsExecuted(s, step);
  }
}
