/**
 Whole runs of the thread pool: what they never do, where they can stop, and that
 they do stop unless threads keep waking up for no reason.
 */
module ThreadPoolRuns {
  import opened Wrappers
  import opened Sums
  import opened ThreadPool
  import opened ThreadPoolSafety

  ghost predicate IsRun(run: seq<State>, steps: seq<Step>) {
    && |run| == |steps| + 1
    && forall k :: 0 <= k < |steps| ==> Enabled(run[k], steps[k]) && run[k + 1] == Do(run[k], steps[k])
  }

  lemma CreateIsInv(numThreads: int, maxQueueSize: nat, calls: seq<seq<Task>>)
    ensures var r := Create(numThreads, maxQueueSize, calls);
      && (r.Some? <==> maxQueueSize > 0)
      && (r.Some? ==> Inv(r.value) && |r.value.workers| == if numThreads <= 0 then 1 else numThreads)
  {
    if maxQueueSize > 0 {
      var s := Create(numThreads, maxQueueSize, calls).value;
      forall t
        ensures ExecutedOnce(s, t)
      {
        SumZero(s.workers, Holding(t));
      }
    }
  }

  lemma {:induction false} RunKeepsInv(run: seq<State>, steps: seq<Step>, k: nat)
    requires IsRun(run, steps) && Inv(run[0]) && k < |run|
    ensures Inv(run[k])
  {
    if k != 0 {
      RunKeepsInv(run, steps, k - 1);
      StepKeepsInv(run[k - 1], steps[k - 1]);
    }
  }

  // ---------- No lost wakeup ----------

  function IsWoken(p: Worker): nat { if p == Woken then 1 else 0 }
  function IsOwing(c: Client): nat { if c.phase == Owing then 1 else 0 }
  function IsRoused(c: Client): nat { if c.phase == Roused then 1 else 0 }

  /**
   Whenever the mutex is free: a sleeping worker means that every queued task is matched by a
   woken worker or an owed notification; a blocked client, that every free place is matched by a
   roused client, unless the pool is being stopped; and after stop, sleepers await a notify_all.
   */
  lemma NoLostWakeup(s: State)
    requires Inv(s) && s.lock == Nobody
    ensures SomeAsleep(s) ==> |s.tasks| <= Sum(s.workers, IsWoken) + Sum(s.clients, IsOwing)
    ensures SomeBlocked(s) && !s.stop ==> s.max + 1 - |s.tasks| <= Sum(s.clients, IsRoused)
    ensures SomeAsleep(s) && s.stop ==> s.destructor == WakingWorkers
    ensures SomeBlocked(s) && s.stop ==> s.destructor in {WakingWorkers, WakingClients}
  {
    SumExact(s.workers, Alert, IsWoken);
    SumExact(s.clients, OwesTask, IsOwing);
    SumExact(s.clients, AlertClient, IsRoused);
    SumZero(s.workers, OwesRoom);
  }

  // ---------- First in, first out ----------

  /** Nothing accepted or taken is forgotten, and stop closes the queue for good. */
  ghost predicate Extends(s: State, s': State) {
    && s.accepted <= s'.accepted && s.taken <= s'.taken && s'.max == s.max
    && (s.stop ==> s'.stop && s'.accepted == s.accepted)
    && (s.stop && s.tasks == [] ==> s'.tasks == [])
  }

  lemma StepExtends(s: State, step: Step)
    requires Mutex(s) && Granted(s) && Queue(s) && Enabled(s, step)
    ensures Extends(s, Do(s, step))
  {
  }

  lemma ExtendsTransitive(s: State, t: State, u: State)
    requires Extends(s, t) && Extends(t, u)
    ensures Extends(s, u)
  {
  }

  lemma {:induction false} RunExtends(run: seq<State>, steps: seq<Step>, i: nat, j: nat)
    requires IsRun(run, steps) && Inv(run[0]) && i <= j < |run|
    ensures Extends(run[i], run[j])
    decreases j - i
  {
    if i < j {
      RunExtends(run, steps, i, j - 1);
      RunKeepsInv(run, steps, j - 1);
      StepExtends(run[j - 1], steps[j - 1]);
      ExtendsTransitive(run[i], run[j - 1], run[j]);
    }
  }

  /**
   Along a run, tasks are taken in the order in which they were accepted and never twice; the
   queue holds at most one task more than the bound; nothing is accepted after stop; and once a
   worker has returned the queue stays empty.
   */
  lemma History(run: seq<State>, steps: seq<Step>, i: nat, j: nat)
    requires IsRun(run, steps) && Inv(run[0]) && i <= j < |run|
    ensures run[i].accepted <= run[j].accepted && run[i].taken <= run[j].taken <= run[j].accepted
    ensures |run[j].tasks| <= run[0].max + 1
    ensures run[i].stop ==> run[j].stop && run[j].accepted == run[i].accepted
    ensures run[j].rejected != multiset{} ==> run[j].stop
    ensures (exists w: nat :: WorkerIs(run[i], w, Returned)) ==> run[j].tasks == []
  {
    RunKeepsInv(run, steps, i);
    RunKeepsInv(run, steps, j);
    RunExtends(run, steps, i, j);
    RunExtends(run, steps, 0, j);
  }

  // ---------- Exactly once ----------

  lemma NothingInHand(s: State)
    requires Inv(s) && s.tasks == []
    requires forall w :: 0 <= w < |s.workers| ==> s.workers[w] in {Looping, Checking, Asleep, Woken, Ready, Returned}
    ensures s.ran == multiset(s.accepted)
  {
    assert s.accepted == s.taken;
    forall t
      ensures s.ran[t] == multiset(s.accepted)[t]
    {
      assert ExecutedOnce(s, t);
      SumZero(s.workers, Holding(t));
    }
  }

  /** When the destructor has joined every worker, every accepted task has run exactly once. */
  lemma JoinedMeansExecuted(s: State)
    requires Inv(s) && s.destructor == Joining(|s.workers|)
    ensures s.ran == multiset(s.accepted) && s.tasks == [] && s.taken == s.accepted
  {
    assert s.workers[0] == Returned;
    NothingInHand(s);
  }

  function Outstanding(t: Task): Client -> nat {
    (c: Client) => multiset(c.calls)[t]
  }

  /** Every call of enqueue is outstanding, accepted or rejected: none is lost or answered twice. */
  ghost function Answered(s: State, t: Task): nat {
    multiset(s.accepted)[t] + s.rejected[t] + Sum(s.clients, Outstanding(t))
  }

  lemma EndCallOutstanding(c: Client, p: Phase, t: Task)
    requires c.calls != []
    ensures Outstanding(t)(Client(p, c.calls[1..])) + multiset{c.calls[0]}[t] == Outstanding(t)(c)
  {
    assert c.calls == [c.calls[0]] + c.calls[1..];
  }

  lemma PushConserves(s: State, c: nat, t: Task)
    requires ClientCan(s, c, Push)
    ensures Answered(ClientDo(s, c, Push), t) == Answered(s, t)
  {
    var k := s.clients[c];
    var k' := Client(if s.stop then Idle else Leaving, k.calls[1..]);
    SumUpdate(s.clients, c, k', Outstanding(t));
    EndCallOutstanding(k, k'.phase, t);
    assert multiset(s.accepted + [k.calls[0]])[t] == multiset(s.accepted)[t] + multiset{k.calls[0]}[t];
    assert (s.rejected + multiset{k.calls[0]})[t] == s.rejected[t] + multiset{k.calls[0]}[t];
  }

  lemma ClientConserves(s: State, c: nat, act: ClientAct, t: Task)
    requires ClientCan(s, c, act)
    ensures Answered(ClientDo(s, c, act), t) == Answered(s, t)
  {
    if act == Push {
      PushConserves(s, c, t);
    } else {
      SumUpdate(s.clients, c, ClientDo(s, c, act).clients[c], Outstanding(t));
    }
  }

  lemma StepConserves(s: State, step: Step, t: Task)
    requires Enabled(s, step)
    ensures Answered(Do(s, step), t) == Answered(s, t)
  {
    var s' := Do(s, step);
    if step.ClientStep? {
      ClientConserves(s, step.c, step.client, t);
    } else {
      SumSame(s.clients, s'.clients, Outstanding(t));
    }
  }

  lemma {:induction false} RunConserves(run: seq<State>, steps: seq<Step>, k: nat, t: Task)
    requires IsRun(run, steps) && k < |run|
    ensures Answered(run[k], t) == Answered(run[0], t)
  {
    if k != 0 {
      RunConserves(run, steps, k - 1, t);
      StepConserves(run[k - 1], steps[k - 1], t);
    }
  }

  // ---------- Where a run can stop ----------

  /** Steps nobody is obliged to take: spurious wakeups, and starting the destructor. */
  predicate Optional(step: Step) {
    match step
    case WorkerStep(_, act) => act == WakeUp
    case ClientStep(_, act) => act == Rouse
    case DestructorStep(act) => act == Start
  }

  ghost predicate Stuck(s: State) {
    forall step :: Enabled(s, step) ==> Optional(step)
  }

  /** All work is done: every call answered, every accepted task run, and every worker asleep, or joined after stop. */
  ghost predicate Finished(s: State) {
    && s.lock == Nobody && s.tasks == []
    && s.ran == multiset(s.accepted)
    && (forall c :: 0 <= c < |s.clients| ==> s.clients[c] == Client(Idle, []))
    && if s.stop then
         s.destructor == Joining(|s.workers|) && forall w :: 0 <= w < |s.workers| ==> s.workers[w] == Returned
       else
         s.destructor == Alive && forall w :: 0 <= w < |s.workers| ==> s.workers[w] == Asleep
  }

  lemma HolderCanStep(s: State) returns (step: Step)
    requires Mutex(s) && Granted(s) && s.lock != Nobody
    ensures Enabled(s, step) && !Optional(step)
  {
    match s.lock
    case ByWorker(w) =>
      if s.workers[w].Notifying? {
        var target := None;
        if c :| 0 <= c < |s.clients| && s.clients[c].phase == Blocked {
          target := Some(c);
        }
        step := WorkerStep(w, NotifyRoom(target));
      } else {
        step := WorkerStep(w, if s.workers[w] == Checking then Check
                              else if s.workers[w] == Ready then Proceed else Unlock);
      }
    case ByClient(c) =>
      var p := s.clients[c].phase;
      step := ClientStep(c, if p == Testing then Test else if p == Admitted then Push else Leave);
    case ByDestructor =>
      step := DestructorStep(if s.destructor == Stopping then Stop else Release);
  }

  /** No thread holds the mutex or can lock it, and none has anything to do without it. */
  ghost predicate Quiet(s: State) {
    && s.lock == Nobody
    && (forall w :: 0 <= w < |s.workers| ==> s.workers[w] in {Asleep, Returned})
    && (forall c :: 0 <= c < |s.clients| ==> s.clients[c] == Client(Idle, []) || s.clients[c].phase == Blocked)
    && (s.destructor == Alive || s.destructor.Joining?)
    && (s.destructor.Joining? && s.destructor.joined < |s.workers| ==> s.workers[s.destructor.joined] != Returned)
  }

  lemma OthersCanStep(s: State) returns (step: Step)
    requires Mutex(s) && Granted(s) && s.lock == Nobody && !Quiet(s)
    ensures Enabled(s, step) && !Optional(step)
  {
    if w :| 0 <= w < |s.workers| && s.workers[w] !in {Asleep, Returned} {
      step := WorkerStep(w, if s.workers[w].Running? then Run else Lock);
    } else if c :| 0 <= c < |s.clients| && s.clients[c] != Client(Idle, []) && s.clients[c].phase != Blocked {
      if s.clients[c].phase == Owing {
        var target := None;
        if w :| 0 <= w < |s.workers| && s.workers[w] == Asleep {
          target := Some(w);
        }
        step := ClientStep(c, NotifyTask(target));
      } else {
        step := ClientStep(c, if s.clients[c].phase == Idle then Call else Enter);
      }
    } else {
      var d := s.destructor;
      step := DestructorStep(if d == Closing then Close else if d == WakingWorkers then WakeWorkers
                             else if d == WakingClients then WakeClients else Join);
    }
  }

  lemma QuietMeansFinished(s: State)
    requires Inv(s) && Quiet(s)
    ensures Finished(s)
  {
    NoLostWakeup(s);
    SumZero(s.workers, IsWoken);
    SumZero(s.clients, IsOwing);
    SumZero(s.clients, IsRoused);
    if s.stop {
      assert forall w :: 0 <= w < |s.workers| ==> s.workers[w] == Returned;
      assert s.workers[0] == Returned;
    } else {
      assert forall w :: 0 <= w < |s.workers| ==> s.workers[w] == Asleep;
      assert s.workers[0] == Asleep;
    }
    assert s.tasks == [];
    NothingInHand(s);
  }

  /** No deadlock: a state that cannot go on by itself has finished all its work, and conversely. */
  lemma StuckIffFinished(s: State)
    requires Inv(s)
    ensures Stuck(s) <==> Finished(s)
  {
    if !Finished(s) {
      if s.lock != Nobody {
        var step := HolderCanStep(s);
      } else {
        if Quiet(s) { QuietMeansFinished(s); }
        var step := OthersCanStep(s);
      }
    }
  }

  // ---------- Runs end ----------

  function WorkerWeight(p: Worker): nat {
    match p
    case Looping => 3
    case Checking => 2
    case Asleep => 0
    case Woken => 3
    case Ready => 1
    case Notifying(_) => 8
    case Unlocking(_) => 5
    case Running(_) => 4
    case Returned => 0
  }

  function ClientWeight(c: Client): nat {
    var n := 20 * |c.calls|;
    match c.phase
    case Idle => n
    case Leaving => n + 5
    case Owing => n + 4
    case _ => if c.calls == [] then 0 else n - PhaseSpent(c.phase)
  }

  function PhaseSpent(p: Phase): (r: nat)
    ensures r <= 6
  {
    if p == Entering || p == Roused then 4 else if p == Testing then 5 else 6
  }

  function DestructorWeight(s: State): int {
    var w, c := |s.workers|, |s.clients|;
    match s.destructor
    case Alive => 8 + 4 * w + 2 * c
    case Closing => 7 + 4 * w + 2 * c
    case Stopping => 6 + 4 * w + 2 * c
    case Releasing => 5 + 4 * w + 2 * c
    case WakingWorkers => 4 + 4 * w + 2 * c
    case WakingClients => 3 + w + 2 * c
    case Joining(j) => w - j
  }

  /** How many more steps the pool can take before it is stuck, not counting spurious wakeups. */
  function Measure(s: State): int {
    8 * |s.tasks| + Sum(s.workers, WorkerWeight) + Sum(s.clients, ClientWeight) + DestructorWeight(s)
  }

  predicate Spurious(step: Step) {
    (step.WorkerStep? && step.worker == WakeUp) || (step.ClientStep? && step.client == Rouse)
  }

  lemma RousingCosts(s: State, target: Option<nat>)
    requires Granted(s) && PicksClient(s, target)
    ensures Sum(WakeClient(s, target).clients, ClientWeight) <= Sum(s.clients, ClientWeight) + 2
  {
    if target.Some? {
      SumUpdate(s.clients, target.value, s.clients[target.value].(phase := Roused), ClientWeight);
    }
  }

  lemma NotifyRoomSpends(s: State, w: nat, target: Option<nat>)
    requires Granted(s) && WorkerCan(s, w, NotifyRoom(target))
    ensures Measure(WorkerDo(s, w, NotifyRoom(target))) < Measure(s)
  {
    SumUpdate(s.workers, w, Unlocking(s.workers[w].task), WorkerWeight);
    RousingCosts(s, target);
  }

  lemma ProceedSpends(s: State, w: nat)
    requires Granted(s) && WorkerCan(s, w, Proceed)
    ensures Measure(WorkerDo(s, w, Proceed)) < Measure(s)
  {
    SumUpdate(s.workers, w, WorkerDo(s, w, Proceed).workers[w], WorkerWeight);
  }

  lemma WorkerSpends(s: State, w: nat, act: WorkerAct)
    requires Granted(s) && WorkerCan(s, w, act)
    ensures Measure(WorkerDo(s, w, act)) <= Measure(s) + (if act == WakeUp then 3 else -1)
  {
    match act
    case NotifyRoom(target) => NotifyRoomSpends(s, w, target);
    case Proceed => ProceedSpends(s, w);
    case _ => SumUpdate(s.workers, w, WorkerDo(s, w, act).workers[w], WorkerWeight);
  }

  lemma PushSpends(s: State, c: nat)
    requires Granted(s) && ClientCan(s, c, Push)
    ensures Measure(ClientDo(s, c, Push)) < Measure(s)
  {
    var k := s.clients[c];
    SumUpdate(s.clients, c, Client(if s.stop then Idle else Leaving, k.calls[1..]), ClientWeight);
    assert |k.calls[1..]| == |k.calls| - 1;
  }

  lemma NotifyTaskSpends(s: State, c: nat, target: Option<nat>)
    requires Granted(s) && ClientCan(s, c, NotifyTask(target))
    ensures Measure(ClientDo(s, c, NotifyTask(target))) < Measure(s)
  {
    SumUpdate(s.clients, c, s.clients[c].(phase := Idle), ClientWeight);
    if target.Some? {
      SumUpdate(s.workers, target.value, Woken, WorkerWeight);
    }
  }

  lemma ClientSpends(s: State, c: nat, act: ClientAct)
    requires Granted(s) && ClientCan(s, c, act)
    ensures Measure(ClientDo(s, c, act)) <= Measure(s) + (if act == Rouse then 3 else -1)
  {
    match act
    case Push => PushSpends(s, c);
    case NotifyTask(target) => NotifyTaskSpends(s, c, target);
    case _ => SumUpdate(s.clients, c, ClientDo(s, c, act).clients[c], ClientWeight);
  }

  lemma DestructorSpends(s: State, act: DestructorAct)
    requires Granted(s) && DestructorCan(s, act)
    ensures Measure(DestructorDo(s, act)) < Measure(s)
  {
    if act == WakeWorkers {
      SumGrowth(s.workers, AllWorkersWoken(s.workers), WorkerWeight, 3);
    } else if act == WakeClients {
      SumGrowth(s.clients, AllClientsRoused(s.clients), ClientWeight, 2);
    }
  }

  lemma StepSpends(s: State, step: Step)
    requires Granted(s) && Enabled(s, step)
    ensures Measure(Do(s, step)) <= Measure(s) + (if Spurious(step) then 3 else -1)
  {
    match step
    case WorkerStep(w, act) => WorkerSpends(s, w, act);
    case ClientStep(c, act) => ClientSpends(s, c, act);
    case DestructorStep(act) => DestructorSpends(s, act);
  }

  function SpuriousCount(steps: seq<Step>): nat {
    if steps == [] then 0
    else SpuriousCount(steps[..|steps| - 1]) + (if Spurious(steps[|steps| - 1]) then 1 else 0)
  }

  lemma {:induction false} RunSpends(run: seq<State>, steps: seq<Step>, k: nat)
    requires IsRun(run, steps) && Inv(run[0]) && k <= |steps|
    ensures k + Measure(run[k]) <= Measure(run[0]) + 4 * SpuriousCount(steps[..k])
  {
    if k != 0 {
      RunSpends(run, steps, k - 1);
      RunKeepsInv(run, steps, k - 1);
      StepSpends(run[k - 1], steps[k - 1]);
      assert steps[..k][..k - 1] == steps[..k - 1];
    }
  }

  /** The length of a run is bounded by its start and the number of spurious wakeups in it. */
  lemma RunsAreBounded(run: seq<State>, steps: seq<Step>)
    requires IsRun(run, steps) && Inv(run[0])
    ensures |steps| <= Measure(run[0]) + 4 * SpuriousCount(steps)
  {
    RunSpends(run, steps, |steps|);
    RunKeepsInv(run, steps, |steps|);
    MeasureIsNatural(run[|steps|]);
    assert steps[..|steps|] == steps;
  }

  lemma MeasureIsNatural(s: State)
    requires Queue(s)
    ensures Measure(s) >= 0
  {
  }

  /** A run that cannot go on has answered every call, and has run exactly the accepted tasks. */
  lemma MaximalRunsFinish(numThreads: int, maxQueueSize: nat, calls: seq<seq<Task>>, run: seq<State>, steps: seq<Step>)
    requires maxQueueSize > 0 && IsRun(run, steps) && run[0] == Create(numThreads, maxQueueSize, calls).value
    requires Stuck(run[|steps|])
    ensures var s := run[|steps|];
      Finished(s) && forall t :: s.ran[t] + s.rejected[t] == Sum(run[0].clients, Outstanding(t))
  {
    var s := run[|steps|];
    CreateIsInv(numThreads, maxQueueSize, calls);
    RunKeepsInv(run, steps, |steps|);
    StuckIffFinished(s);
    forall t
      ensures s.ran[t] + s.rejected[t] == Sum(run[0].clients, Outstanding(t))
    {
      RunConserves(run, steps, |steps|, t);
      SumZero(s.clients, Outstanding(t));
    }
  }
}
