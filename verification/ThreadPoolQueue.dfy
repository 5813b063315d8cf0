/**
 How full the queue of the pool gets, and how many tasks run at once.  The wait of enqueue tests <=,
 so the queue can hold one task more than its bound; and a worker runs its task without the mutex, so
 all workers can be busy while clients go on filling the queue.
 */
module ThreadPoolQueue {
  import opened Wrappers
  import opened Sums
  import opened ThreadPool
  import opened ThreadPoolSafety
  import opened ThreadPoolRuns

  function CallsLeft(c: Client): nat { |c.calls| }
  function Length(calls: seq<Task>): nat { |calls| }

  /** All the tasks that are in the queue or may still get there. */
  function Supply(s: State): nat {
    |s.tasks| + Sum(s.clients, CallsLeft)
  }

  // ---------- Never more than there are calls ----------

  lemma StepAddsNothing(s: State, step: Step)
    requires Enabled(s, step)
    ensures Supply(Do(s, step)) <= Supply(s)
  {
    var s' := Do(s, step);
    if step.ClientStep? {
      SumUpdate(s.clients, step.c, s'.clients[step.c], CallsLeft);
    } else {
      SumSame(s.clients, s'.clients, CallsLeft);
    }
  }

  lemma {:induction false} RunAddsNothing(run: seq<State>, steps: seq<Step>, k: nat)
    requires IsRun(run, steps) && k < |run|
    ensures Supply(run[k]) <= Supply(run[0])
  {
    if k != 0 {
      RunAddsNothing(run, steps, k - 1);
      StepAddsNothing(run[k - 1], steps[k - 1]);
    }
  }

  // ---------- A run that fills the queue ----------

  /** The mutex is free, no client is inside, and no worker is waiting. */
  ghost predicate Resting(s: State) {
    && s.lock == Nobody && !s.stop
    && (forall w :: 0 <= w < |s.workers| ==> s.workers[w] == Looping || s.workers[w].Running?)
    && (forall c :: 0 <= c < |s.clients| ==> s.clients[c].phase == Idle)
  }

  /** Some run from s comes to t. */
  ghost predicate Reaches(s: State, t: State) {
    exists run, steps, k: nat :: IsRun(run, steps) && run[0] == s && k < |run| && run[k] == t
  }

  lemma NoStep(s: State)
    ensures Reaches(s, s)
  {
    var run, steps: seq<Step> := [s], [];
    assert IsRun(run, steps) && run[0] == s && 0 < |run| && run[0] == s;
  }

  lemma FirstStep(s: State, step: Step, t: State)
    requires Enabled(s, step) && Reaches(Do(s, step), t)
    ensures Reaches(s, t)
  {
    var run, steps, k: nat :| IsRun(run, steps) && run[0] == Do(s, step) && k < |run| && run[k] == t;
    var run', steps' := [s] + run, [step] + steps;
    forall i | 0 <= i < |steps'|
      ensures Enabled(run'[i], steps'[i]) && run'[i + 1] == Do(run'[i], steps'[i])
    {
      assert i == 0 ==> run'[0] == s && run'[1] == run[0] && steps'[0] == step;
      assert i > 0 ==> run'[i] == run[i - 1] && run'[i + 1] == run[i] && steps'[i] == steps[i - 1];
    }
    assert IsRun(run', steps') && run'[0] == s && run'[k + 1] == t;
  }

  ghost function LetIn(s: State, c: nat): State
    requires c < |s.clients|
  {
    SetPhase(s, c, Admitted).(lock := ByClient(c))
  }

  /** A client calls enqueue and finds room. */
  lemma CallIsAdmitted(s: State, c: nat, t: State)
    requires Resting(s) && |s.tasks| <= s.max && c < |s.clients| && s.clients[c].calls != []
    requires Reaches(LetIn(s, c), t)
    ensures Reaches(s, t)
  {
    var s1 := ClientDo(s, c, Call);
    var s2 := ClientDo(s1, c, Enter);
    assert ClientDo(s2, c, Test) == LetIn(s, c);
    FirstStep(s2, ClientStep(c, Test), t);
    FirstStep(s1, ClientStep(c, Enter), t);
    FirstStep(s, ClientStep(c, Call), t);
  }

  ghost function Called(s: State, c: nat): State
    requires c < |s.clients| && s.clients[c].calls != []
  {
    var task := s.clients[c].calls[0];
    EndCall(s, c, Idle).(tasks := s.tasks + [task], accepted := s.accepted + [task])
  }

  /** It pushes its task; there is nobody asleep to be notified. */
  lemma CallIsDone(s: State, c: nat, t: State)
    requires Resting(s) && c < |s.clients| && s.clients[c].calls != [] && Reaches(Called(s, c), t)
    ensures Reaches(LetIn(s, c), t)
  {
    var s3 := LetIn(s, c);
    var s4 := ClientDo(s3, c, Push);
    var s5 := ClientDo(s4, c, Leave);
    assert ClientDo(s5, c, NotifyTask(None)) == Called(s, c);
    FirstStep(s5, ClientStep(c, NotifyTask(None)), t);
    FirstStep(s4, ClientStep(c, Leave), t);
    FirstStep(s3, ClientStep(c, Push), t);
  }

  lemma SomeCall(s: State) returns (c: nat)
    requires Sum(s.clients, CallsLeft) > 0
    ensures c < |s.clients| && s.clients[c].calls != []
  {
    if forall c :: 0 <= c < |s.clients| ==> CallsLeft(s.clients[c]) == 0 {
      SumZero(s.clients, CallsLeft);
    }
    c :| c < |s.clients| && s.clients[c].calls != [];
  }

  /** Clients fill the queue before any worker gets the mutex. */
  lemma {:induction false} FillsUp(s: State, tasks: nat) returns (t: State)
    requires Resting(s) && |s.tasks| <= tasks <= s.max + 1 && tasks <= Supply(s)
    ensures Reaches(s, t) && t.lock == Nobody && t.workers == s.workers && |t.tasks| == tasks
    decreases tasks - |s.tasks|
  {
    if |s.tasks| == tasks {
      t := s;
      NoStep(s);
    } else {
      var c := SomeCall(s);
      SumUpdate(s.clients, c, Called(s, c).clients[c], CallsLeft);
      t := FillsUp(Called(s, c), tasks);
      CallIsDone(s, c, t);
      CallIsAdmitted(s, c, t);
    }
  }

  // ---------- A run that keeps workers busy ----------

  /** Runs a task, without the mutex. */
  function Runs(p: Worker): nat { if p.Running? then 1 else 0 }

  /** Has popped a task and not yet run it. */
  function Carries(p: Worker): nat { if p.Notifying? || p.Unlocking? || p.Running? then 1 else 0 }

  lemma WorkerAddsNoWork(s: State, w: nat, act: WorkerAct)
    requires WorkerCan(s, w, act)
    ensures var s' := WorkerDo(s, w, act);
      |s'.tasks| + Sum(s'.workers, Carries) <= |s.tasks| + Sum(s.workers, Carries)
  {
    SumUpdate(s.workers, w, WorkerDo(s, w, act).workers[w], Carries);
  }

  lemma ClientAddsNoWork(s: State, c: nat, act: ClientAct)
    requires ClientCan(s, c, act)
    ensures Sum(ClientDo(s, c, act).workers, Carries) == Sum(s.workers, Carries)
  {
    if act.NotifyTask? && act.target.Some? {
      SumUpdate(s.workers, act.target.value, Woken, Carries);
    }
  }

  lemma StepAddsNoWork(s: State, step: Step)
    requires Enabled(s, step)
    ensures Supply(Do(s, step)) + Sum(Do(s, step).workers, Carries) <= Supply(s) + Sum(s.workers, Carries)
  {
    match step
    case WorkerStep(w, act) =>
      WorkerAddsNoWork(s, w, act);
      SumSame(s.clients, WorkerDo(s, w, act).clients, CallsLeft);
    case ClientStep(c, act) =>
      ClientAddsNoWork(s, c, act);
      StepAddsNothing(s, step);
    case DestructorStep(act) =>
      StepAddsNothing(s, step);
      SumSame(s.workers, DestructorDo(s, act).workers, Carries);
  }

  lemma {:induction false} RunAddsNoWork(run: seq<State>, steps: seq<Step>, k: nat)
    requires IsRun(run, steps) && k < |run|
    ensures Supply(run[k]) + Sum(run[k].workers, Carries) <= Supply(run[0]) + Sum(run[0].workers, Carries)
  {
    if k != 0 {
      RunAddsNoWork(run, steps, k - 1);
      StepAddsNoWork(run[k - 1], steps[k - 1]);
    }
  }

  lemma {:induction false} RunningIsCarrying(ws: seq<Worker>)
    ensures Sum(ws, Runs) <= Sum(ws, Carries) && Sum(ws, Runs) <= |ws|
  {
    if ws != [] {
      RunningIsCarrying(ws[..|ws| - 1]);
    }
  }

  ghost function Popped(s: State, w: nat): State
    requires w < |s.workers| && s.tasks != []
  {
    SetWorker(s, w, Notifying(s.tasks[0])).(lock := ByWorker(w), tasks := s.tasks[1..], taken := s.taken + [s.tasks[0]])
  }

  /** A worker takes a task out of the queue. */
  lemma TaskIsPopped(s: State, w: nat, t: State)
    requires Resting(s) && w < |s.workers| && s.workers[w] == Looping && s.tasks != [] && Reaches(Popped(s, w), t)
    ensures Reaches(s, t)
  {
    var s1 := WorkerDo(s, w, Lock);
    var s2 := WorkerDo(s1, w, Check);
    assert WorkerDo(s2, w, Proceed) == Popped(s, w);
    FirstStep(s2, WorkerStep(w, Proceed), t);
    FirstStep(s1, WorkerStep(w, Check), t);
    FirstStep(s, WorkerStep(w, Lock), t);
  }

  ghost function AtWork(s: State, w: nat): State
    requires w < |s.workers| && s.tasks != []
  {
    SetWorker(s, w, Running(s.tasks[0])).(tasks := s.tasks[1..], taken := s.taken + [s.tasks[0]])
  }

  /** It gives up the mutex; there is nobody blocked to be notified. */
  lemma TaskIsStarted(s: State, w: nat, t: State)
    requires Resting(s) && w < |s.workers| && s.tasks != [] && Reaches(AtWork(s, w), t)
    ensures Reaches(Popped(s, w), t)
  {
    var s3 := Popped(s, w);
    var s4 := WorkerDo(s3, w, NotifyRoom(None));
    assert WorkerDo(s4, w, Unlock) == AtWork(s, w);
    FirstStep(s4, WorkerStep(w, Unlock), t);
    FirstStep(s3, WorkerStep(w, NotifyRoom(None)), t);
  }

  lemma {:induction false} SomeFree(ws: seq<Worker>) returns (w: nat)
    requires Sum(ws, Runs) < |ws|
    ensures w < |ws| && !ws[w].Running?
  {
    w := |ws| - 1;
    if ws[w].Running? {
      w := SomeFree(ws[..w]);
    }
  }

  /**
   Clients hand their tasks to one worker after the other while the earlier ones are running, and then fill
   the queue.
   */
  lemma {:induction false} GetsBusy(s: State, running: nat, tasks: nat) returns (t: State)
    requires Resting(s) && s.tasks == [] && Sum(s.workers, Runs) <= running <= |s.workers|
    requires tasks <= s.max + 1 && running + tasks <= Supply(s) + Sum(s.workers, Runs)
    ensures Reaches(s, t) && t.lock == Nobody && Sum(t.workers, Runs) == running && |t.tasks| == tasks
    decreases running - Sum(s.workers, Runs)
  {
    if Sum(s.workers, Runs) == running {
      t := FillsUp(s, tasks);
    } else {
      var c := SomeCall(s);
      var w := SomeFree(s.workers);
      var s1 := Called(s, c);
      var s2 := AtWork(s1, w);
      SumUpdate(s.clients, c, s1.clients[c], CallsLeft);
      SumUpdate(s.workers, w, s2.workers[w], Runs);
      t := GetsBusy(s2, running, tasks);
      TaskIsStarted(s1, w, t);
      TaskIsPopped(s1, w, t);
      CallIsDone(s, c, t);
      CallIsAdmitted(s, c, t);
    }
  }

  // ---------- Exactly ----------

  lemma {:induction false} CallsGiven(clients: seq<Client>, calls: seq<seq<Task>>)
    requires |clients| == |calls| && forall c :: 0 <= c < |calls| ==> clients[c].calls == calls[c]
    ensures Sum(clients, CallsLeft) == Sum(calls, Length)
  {
    if calls != [] {
      CallsGiven(clients[..|calls| - 1], calls[..|calls| - 1]);
    }
  }

  lemma NewPool(numThreads: int, max: nat, calls: seq<seq<Task>>) returns (s: State)
    requires max > 0
    ensures s == Create(numThreads, max, calls).value && Inv(s) && Resting(s) && s.tasks == [] && s.max == max
    ensures Supply(s) == Sum(calls, Length) && Sum(s.workers, Carries) == 0 == Sum(s.workers, Runs)
  {
    s := Create(numThreads, max, calls).value;
    CreateIsInv(numThreads, max, calls);
    CallsGiven(s.clients, calls);
    SumZero(s.workers, Carries);
    SumZero(s.workers, Runs);
  }

  lemma ReachedLimits(s: State, t: State)
    requires Inv(s) && Reaches(s, t)
    ensures Sum(t.workers, Runs) + |t.tasks| <= Supply(s) + Sum(s.workers, Carries)
    ensures Sum(t.workers, Runs) <= |s.workers| && |t.tasks| <= s.max + 1
  {
    var run, steps, k: nat :| IsRun(run, steps) && run[0] == s && k < |run| && run[k] == t;
    RunAddsNoWork(run, steps, k);
    RunningIsCarrying(t.workers);
    History(run, steps, 0, k);
    SameWorkers(run, steps, k);
  }

  lemma StepSameWorkers(s: State, step: Step)
    requires Enabled(s, step)
    ensures |Do(s, step).workers| == |s.workers|
  {
  }

  lemma {:induction false} SameWorkers(run: seq<State>, steps: seq<Step>, k: nat)
    requires IsRun(run, steps) && k < |run|
    ensures |run[k].workers| == |run[0].workers|
  {
    if k != 0 {
      SameWorkers(run, steps, k - 1);
      StepSameWorkers(run[k - 1], steps[k - 1]);
    }
  }

  /** While that many workers run tasks, all without the mutex, the queue holds that many others. */
  ghost predicate CanBeBusy(s: State, running: nat, tasks: nat) {
    exists t :: Reaches(s, t) && t.lock == Nobody && Sum(t.workers, Runs) == running && |t.tasks| == tasks
  }

  /**
   In a new pool so many tasks can be running at once, while so many others wait in the queue and the
   mutex is free, exactly when there are that many workers, that many places and one more, and calls for all of them.
   */
  lemma BusyExactly(numThreads: int, max: nat, calls: seq<seq<Task>>, running: nat, tasks: nat)
    requires max > 0
    ensures CanBeBusy(Create(numThreads, max, calls).value, running, tasks) <==>
      && running <= (if numThreads <= 0 then 1 else numThreads)
      && tasks <= max + 1
      && running + tasks <= Sum(calls, Length)
  {
    var s := NewPool(numThreads, max, calls);
    CreateIsInv(numThreads, max, calls);
    if CanBeBusy(s, running, tasks) {
      var t :| Reaches(s, t) && t.lock == Nobody && Sum(t.workers, Runs) == running && |t.tasks| == tasks;
      ReachedLimits(s, t);
    }
    if running <= |s.workers| && tasks <= max + 1 && running + tasks <= Sum(calls, Length) {
      var t := GetsBusy(s, running, tasks);
    }
  }

  /** Some run comes to a state with that many workers running tasks without the mutex, whatever else holds in it. */
  ghost predicate CanRun(s: State, running: nat) {
    exists t :: Reaches(s, t) && Sum(t.workers, Runs) == running
  }

  /** Exactly as many tasks can run at once as there are workers and calls. */
  lemma RunsAtOnce(numThreads: int, max: nat, calls: seq<seq<Task>>, running: nat)
    requires max > 0
    ensures var s := Create(numThreads, max, calls).value;
      CanRun(s, running) <==> running <= |s.workers| && running <= Sum(calls, Length)
  {
    var s := NewPool(numThreads, max, calls);
    if CanRun(s, running) {
      var t :| Reaches(s, t) && Sum(t.workers, Runs) == running;
      ReachedLimits(s, t);
    }
    if running <= |s.workers| && running <= Sum(calls, Length) {
      var t := GetsBusy(s, running, 0);
    }
  }

  /** In some run from s there is a state with that many tasks in the queue. */
  ghost predicate CanHold(s: State, tasks: nat) {
    exists t :: Reaches(s, t) && |t.tasks| == tasks
  }

  /**
   A new pool can get that many tasks into its queue exactly when they are called for and at most one beyond
   the bound.
   */
  lemma HoldsExactly(numThreads: int, max: nat, calls: seq<seq<Task>>, tasks: nat)
    requires max > 0
    ensures CanHold(Create(numThreads, max, calls).value, tasks) <==> tasks <= max + 1 && tasks <= Sum(calls, Length)
  {
    var s := NewPool(numThreads, max, calls);
    if CanHold(s, tasks) {
      var t :| Reaches(s, t) && |t.tasks| == tasks;
      ReachedLimits(s, t);
    }
    if tasks <= max + 1 && tasks <= Sum(calls, Length) {
      var t := FillsUp(s, tasks);
    }
  }

  /** The bound is overshot, by one task, exactly when there are more calls than the bound. */
  lemma OvershootsIff(numThreads: int, max: nat, calls: seq<seq<Task>>)
    requires max > 0
    ensures var s := Create(numThreads, max, calls).value;
      && (CanHold(s, max + 1) <==> Sum(calls, Length) > max)
      && ((forall tasks: nat :: CanHold(s, tasks) ==> tasks <= max) <==> Sum(calls, Length) <= max)
  {
    HoldsExactly(numThreads, max, calls, max + 1);
    forall tasks: nat
      ensures CanHold(Create(numThreads, max, calls).value, tasks) <==> tasks <= max + 1 && tasks <= Sum(calls, Length)
    {
      HoldsExactly(numThreads, max, calls, tasks);
    }
  }

  /** A worker may wake up although nothing was accepted and nobody stopped the pool. */
  lemma WakesForNoReason(numThreads: int, max: nat, calls: seq<seq<Task>>)
    requires max > 0
    ensures exists t :: Reaches(Create(numThreads, max, calls).value, t)
                        && t.accepted == [] && !t.stop && WorkerIs(t, 0, Woken)
  {
    var s := NewPool(numThreads, max, calls);
    var s1 := WorkerDo(s, 0, Lock);
    var s2 := WorkerDo(s1, 0, Check);
    var t := WorkerDo(s2, 0, WakeUp);
    NoStep(t);
    FirstStep(s2, WorkerStep(0, WakeUp), t);
    FirstStep(s1, WorkerStep(0, Check), t);
    FirstStep(s, WorkerStep(0, Lock), t);
    assert t.accepted == [] && !t.stop && WorkerIs(t, 0, Woken);
  }
}
