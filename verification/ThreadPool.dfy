/**
 The thread pool as a system of threads taking atomic steps.

 Worker threads, client threads that call enqueue, and the thread that runs the
 destructor share a bounded queue of tasks behind one mutex and two condition
 variables.  Each step is one statement of one thread: acquiring the mutex,
 evaluating the predicate of a wait, going to sleep, being notified, and so on.
 A waiting thread may also wake spuriously at any time.
 */
module ThreadPool {
  import opened Wrappers

  type Task = nat

  datatype Worker =
    | Looping                  // at the top of the loop, about to lock the mutex
    | Checking                 // holds the mutex, about to evaluate the wait predicate
    | Asleep                   // waiting on task_condition, mutex released
    | Woken                    // out of the wait, must lock the mutex again
    | Ready                    // holds the mutex, the wait predicate held
    | Notifying(task: Task)    // holds the mutex, task popped, about to notify enqueue_condition
    | Unlocking(task: Task)    // holds the mutex, about to release it
    | Running(task: Task)      // runs the task without the mutex
    | Returned

  datatype Phase =
    | Idle                     // between calls of enqueue
    | Entering                 // about to lock the mutex
    | Testing                  // holds the mutex, about to evaluate the wait predicate
    | Blocked                  // waiting on enqueue_condition, mutex released
    | Roused                   // out of the wait, must lock the mutex again
    | Admitted                 // holds the mutex, the wait predicate held
    | Leaving                  // holds the mutex, task pushed, about to release it
    | Owing                    // about to notify task_condition, without the mutex

  /** A client thread: the calls of enqueue still to be made, the current one first. */
  datatype Client = Client(phase: Phase, calls: seq<Task>)

  datatype Destructor =
    | Alive                    // not started
    | Closing                  // about to lock the mutex
    | Stopping                 // holds the mutex, about to set stop
    | Releasing                // holds the mutex, stop is set
    | WakingWorkers            // about to notify_all on task_condition
    | WakingClients            // about to notify_all on enqueue_condition
    | Joining(joined: nat)     // has joined that many workers

  datatype Holder = Nobody | ByWorker(w: nat) | ByClient(c: nat) | ByDestructor

  datatype State = State(
    max: nat,
    lock: Holder,
    tasks: seq<Task>,
    stop: bool,
    workers: seq<Worker>,
    clients: seq<Client>,
    destructor: Destructor,
    // what has happened so far
    accepted: seq<Task>,       // pushed to the queue, in order
    taken: seq<Task>,          // popped from the queue, in order
    ran: multiset<Task>,       // run to completion
    rejected: multiset<Task>)  // refused with an exception

  datatype WorkerAct = Lock | Check | Proceed | NotifyRoom(target: Option<nat>) | Unlock | Run | WakeUp
  datatype ClientAct = Call | Enter | Test | Push | Leave | NotifyTask(target: Option<nat>) | Rouse
  datatype DestructorAct = Start | Close | Stop | Release | WakeWorkers | WakeClients | Join

  datatype Step =
    | WorkerStep(w: nat, worker: WorkerAct)
    | ClientStep(c: nat, client: ClientAct)
    | DestructorStep(destructor: DestructorAct)

  /** The constructor: at least one worker; a queue bound of zero is refused. */
  function Create(numThreads: int, maxQueueSize: nat, calls: seq<seq<Task>>): Option<State> {
    if maxQueueSize == 0 then None
    else
      var n := if numThreads <= 0 then 1 else numThreads;
      Some(State(maxQueueSize, Nobody, [], false,
                 seq(n, _ => Looping), seq(|calls|, i requires 0 <= i < |calls| => Client(Idle, calls[i])), Alive,
                 [], [], multiset{}, multiset{}))
  }

  predicate WorkerIs(s: State, w: nat, p: Worker) {
    w < |s.workers| && s.workers[w] == p
  }

  predicate ClientIs(s: State, c: nat, p: Phase) {
    c < |s.clients| && s.clients[c].phase == p
  }

  /** notify_one wakes one waiting thread if there is one, and is lost otherwise. */
  ghost predicate PicksWorker(s: State, target: Option<nat>) {
    match target
    case Some(w) => WorkerIs(s, w, Asleep)
    case None => forall w :: 0 <= w < |s.workers| ==> s.workers[w] != Asleep
  }

  ghost predicate PicksClient(s: State, target: Option<nat>) {
    match target
    case Some(c) => ClientIs(s, c, Blocked)
    case None => forall c :: 0 <= c < |s.clients| ==> s.clients[c].phase != Blocked
  }

  ghost predicate WorkerCan(s: State, w: nat, act: WorkerAct) {
    && w < |s.workers|
    && match act
       case Lock => (s.workers[w] == Looping || s.workers[w] == Woken) && s.lock == Nobody
       case Check => s.workers[w] == Checking
       case Proceed => s.workers[w] == Ready
       case NotifyRoom(target) => s.workers[w].Notifying? && PicksClient(s, target)
       case Unlock => s.workers[w].Unlocking?
       case Run => s.workers[w].Running?
       case WakeUp => s.workers[w] == Asleep
  }

  ghost predicate ClientCan(s: State, c: nat, act: ClientAct) {
    && c < |s.clients|
    && match act
       case Call => s.clients[c].phase == Idle && s.clients[c].calls != []
       case Enter => (s.clients[c].phase == Entering || s.clients[c].phase == Roused) && s.lock == Nobody
       case Test => s.clients[c].phase == Testing
       case Push => s.clients[c].phase == Admitted && s.clients[c].calls != []
       case Leave => s.clients[c].phase == Leaving
       case NotifyTask(target) => s.clients[c].phase == Owing && PicksWorker(s, target)
       case Rouse => s.clients[c].phase == Blocked
  }

  ghost predicate DestructorCan(s: State, act: DestructorAct) {
    match act
    case Start => s.destructor == Alive
    case Close => s.destructor == Closing && s.lock == Nobody
    case Stop => s.destructor == Stopping
    case Release => s.destructor == Releasing
    case WakeWorkers => s.destructor == WakingWorkers
    case WakeClients => s.destructor == WakingClients
    case Join => s.destructor.Joining? && WorkerIs(s, s.destructor.joined, Returned)
  }

  ghost predicate Enabled(s: State, step: Step) {
    match step
    case WorkerStep(w, act) => WorkerCan(s, w, act)
    case ClientStep(c, act) => ClientCan(s, c, act)
    case DestructorStep(act) => DestructorCan(s, act)
  }

  function SetWorker(s: State, w: nat, p: Worker): State
    requires w < |s.workers|
  {
    s.(workers := s.workers[w := p])
  }

  function SetPhase(s: State, c: nat, p: Phase): State
    requires c < |s.clients|
  {
    s.(clients := s.clients[c := s.clients[c].(phase := p)])
  }

  /** The current call of a client is over. */
  function EndCall(s: State, c: nat, p: Phase): State
    requires c < |s.clients| && s.clients[c].calls != []
  {
    s.(clients := s.clients[c := Client(p, s.clients[c].calls[1..])])
  }

  function WakeWorker(s: State, target: Option<nat>): State {
    match target
    case Some(w) => if w < |s.workers| then SetWorker(s, w, Woken) else s
    case None => s
  }

  function WakeClient(s: State, target: Option<nat>): State {
    match target
    case Some(c) => if c < |s.clients| then SetPhase(s, c, Roused) else s
    case None => s
  }

  function AllWorkersWoken(ws: seq<Worker>): (r: seq<Worker>)
    ensures |r| == |ws|
    ensures forall i :: 0 <= i < |ws| ==> r[i] == if ws[i] == Asleep then Woken else ws[i]
  {
    seq(|ws|, i requires 0 <= i < |ws| => if ws[i] == Asleep then Woken else ws[i])
  }

  function AllClientsRoused(cs: seq<Client>): (r: seq<Client>)
    ensures |r| == |cs|
    ensures forall i :: 0 <= i < |cs| ==> r[i] == if cs[i].phase == Blocked then cs[i].(phase := Roused) else cs[i]
  {
    seq(|cs|, i requires 0 <= i < |cs| => if cs[i].phase == Blocked then cs[i].(phase := Roused) else cs[i])
  }

  function WorkerDo(s: State, w: nat, act: WorkerAct): State
    requires WorkerCan(s, w, act)
  {
    match act
    case Lock => SetWorker(s, w, Checking).(lock := ByWorker(w))
    case Check =>
      if s.stop || s.tasks != [] then SetWorker(s, w, Ready)
      else SetWorker(s, w, Asleep).(lock := Nobody)
    case Proceed =>
      if s.stop && s.tasks == [] then SetWorker(s, w, Returned).(lock := Nobody)
      else if s.tasks == [] then s  // front() of an empty queue: Granted says it does not happen
      else SetWorker(s, w, Notifying(s.tasks[0])).(tasks := s.tasks[1..], taken := s.taken + [s.tasks[0]])
    case NotifyRoom(target) => WakeClient(SetWorker(s, w, Unlocking(s.workers[w].task)), target)
    case Unlock => SetWorker(s, w, Running(s.workers[w].task)).(lock := Nobody)
    case Run => SetWorker(s, w, Looping).(ran := s.ran + multiset{s.workers[w].task})
    case WakeUp => SetWorker(s, w, Woken)
  }

  function ClientDo(s: State, c: nat, act: ClientAct): State
    requires ClientCan(s, c, act)
  {
    match act
    case Call => SetPhase(s, c, Entering)
    case Enter => SetPhase(s, c, Testing).(lock := ByClient(c))
    case Test =>
      if s.stop || |s.tasks| <= s.max then SetPhase(s, c, Admitted)
      else SetPhase(s, c, Blocked).(lock := Nobody)
    case Push =>
      var task := s.clients[c].calls[0];
      if s.stop then EndCall(s, c, Idle).(lock := Nobody, rejected := s.rejected + multiset{task})
      else EndCall(s, c, Leaving).(tasks := s.tasks + [task], accepted := s.accepted + [task])
    case Leave => SetPhase(s, c, Owing).(lock := Nobody)
    case NotifyTask(target) => WakeWorker(SetPhase(s, c, Idle), target)
    case Rouse => SetPhase(s, c, Roused)
  }

  function DestructorDo(s: State, act: DestructorAct): State
    requires DestructorCan(s, act)
  {
    match act
    case Start => s.(destructor := Closing)
    case Close => s.(destructor := Stopping, lock := ByDestructor)
    case Stop => s.(destructor := Releasing, stop := true)
    case Release => s.(destructor := WakingWorkers, lock := Nobody)
    case WakeWorkers => s.(destructor := WakingClients, workers := AllWorkersWoken(s.workers))
    case WakeClients => s.(destructor := Joining(0), clients := AllClientsRoused(s.clients))
    case Join => s.(destructor := Joining(s.destructor.joined + 1))
  }

  function Do(s: State, step: Step): State
    requires Enabled(s, step)
  {
    match step
    case WorkerStep(w, act) => WorkerDo(s, w, act)
    case ClientStep(c, act) => ClientDo(s, c, act)
    case DestructorStep(act) => DestructorDo(s, act)
  }
}
