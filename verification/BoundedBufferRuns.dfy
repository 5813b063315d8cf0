/** Whole runs of the bounded buffer: its invariant, where runs can stop, and that they do. */
module BoundedBufferRuns {
  import opened Wrappers
  import opened Sums
  import opened BoundedBuffer
  import opened BoundedBufferProof

  ghost predicate Inv(s: State) {
    && Mutex(s) && CounterMutex(s) && Granted(s)
    && CounterExact(s)
    && RoomAnnounced(s) && ItemsAnnounced(s)
  }

  lemma InitialIsInv(s: State)
    requires IsInitial(s)
    ensures Inv(s)
  {
    forall v
      ensures AuditedFor(s, v)
    {
      SumZero(s.producers, UnknownIn(v));
      SumZero(s.consumers, UnknownOut(v));
    }
  }

  lemma StepKeepsInv(s: State, step: Step)
    requires Inv(s) && Enabled(s, step)
    ensures Inv(Do(s, step))
  {
    StepKeepsCounterExact(s, step);
    match step
    case ProducerStep(p, act) =>
      ProducerKeepsMutex(s, p, act);
      ProducerKeepsCounterMutex(s, p, act);
      ProducerKeepsGranted(s, p, act);
      ProducerKeepsAnnounced(s, p, act);
    case ConsumerStep(c, act) =>
      ConsumerKeepsMutex(s, c, act);
      ConsumerKeepsCounterMutex(s, c, act);
      ConsumerKeepsGranted(s, c, act);
      ConsumerKeepsAnnounced(s, c, act);
  }

  ghost predicate IsRun(run: seq<State>, steps: seq<Step>) {
    && |run| == |steps| + 1
    && forall k :: 0 <= k < |steps| ==> Enabled(run[k], steps[k]) && run[k + 1] == Do(run[k], steps[k])
  }

  lemma {:induction false} RunKeepsInv(run: seq<State>, steps: seq<Step>, k: nat)
    requires IsRun(run, steps) && IsInitial(run[0]) && k < |run|
    ensures Inv(run[k])
  {
    if k == 0 {
      InitialIsInv(run[0]);
    } else {
      RunKeepsInv(run, steps, k - 1);
      StepKeepsInv(run[k - 1], steps[k - 1]);
    }
  }

  /** With no thread inside, the counter is the multiset of the occupied slots, without zero entries. */
  lemma CounterIsContent(s: State)
    requires Inv(s) && s.lock == Nobody
    ensures forall v :: Tally(s.counter, v) == Content(s)[v]
    ensures forall v :: v in s.counter <==> v in Content(s)
  {
    forall v
      ensures Tally(s.counter, v) == Content(s)[v]
    {
      assert AuditedFor(s, v);
      SumZero(s.producers, UnknownIn(v));
      SumZero(s.consumers, UnknownOut(v));
    }
  }

  // ---------- Where a run can stop ----------

  function ProducerLeft(p: Producer): nat { |p.todo| }
  function ConsumerLeft(c: Consumer): nat { c.todo }

  /** What will be left in the buffer if every call of produce and consume returns. */
  function Surplus(s: State): int {
    s.size + Sum(s.producers, ProducerLeft) - Sum(s.consumers, ConsumerLeft)
  }

  lemma StepKeepsSurplus(s: State, step: Step)
    requires Enabled(s, step)
    ensures Surplus(Do(s, step)) == Surplus(s)
  {
    var s' := Do(s, step);
    match step
    case ProducerStep(p, act) =>
      ProducerMoves(s, p, act);
      SumUpdate(s.producers, p, s'.producers[p], ProducerLeft);
      SumSame(s.consumers, s'.consumers, ConsumerLeft);
    case ConsumerStep(c, act) =>
      ConsumerMoves(s, c, act);
      SumUpdate(s.consumers, c, s'.consumers[c], ConsumerLeft);
      SumSame(s.producers, s'.producers, ProducerLeft);
  }

  lemma {:induction false} RunKeepsSurplus(run: seq<State>, steps: seq<Step>, k: nat)
    requires IsRun(run, steps) && k < |run|
    ensures Surplus(run[k]) == Surplus(run[0]) && run[k].capacity == run[0].capacity
  {
    if k != 0 {
      RunKeepsSurplus(run, steps, k - 1);
      StepKeepsSurplus(run[k - 1], steps[k - 1]);
    }
  }

  /** A spurious wakeup is the only step nobody is obliged to take. */
  ghost predicate Stuck(s: State) {
    forall step :: Enabled(s, step) ==> step.act == WakeUp
  }

  /** Every call of every thread has returned. */
  ghost predicate Finished(s: State) {
    && s.lock == Nobody
    && (forall p :: 0 <= p < |s.producers| ==> s.producers[p] == Producer(Outside, []))
    && (forall c :: 0 <= c < |s.consumers| ==> s.consumers[c] == Consumer(Outside, 0))
  }

  /** No thread is inside, and every thread is either done or asleep. */
  ghost predicate Quiet(s: State) {
    && s.lock == Nobody
    && (forall p :: 0 <= p < |s.producers| ==>
         s.producers[p] == Producer(Outside, []) || s.producers[p].place == Asleep)
    && (forall c :: 0 <= c < |s.consumers| ==> s.consumers[c] == Consumer(Outside, 0) || s.consumers[c].place == Asleep)
  }

  function NextAct(at: Place): Act {
    match at
    case Testing => Test
    case Moving => Move
    case Moved(_) => LockCounter
    case Auditing(_) => Audit
    case Audited => UnlockCounter
    case Leaving => Unlock
    case _ => Lock
  }

  lemma HolderCanStep(s: State) returns (step: Step)
    requires Mutex(s) && CounterMutex(s) && Granted(s) && s.lock != Nobody
    ensures Enabled(s, step) && step.act != WakeUp
  {
    match s.lock
    case ByProducer(p) =>
      if s.producers[p].place == Notifying {
        var target := None;
        if c :| 0 <= c < |s.consumers| && s.consumers[c].place == Asleep {
          target := Some(c);
        }
        step := ProducerStep(p, Notify(target));
      } else {
        step := ProducerStep(p, NextAct(s.producers[p].place));
      }
    case ByConsumer(c) =>
      if s.consumers[c].place == Notifying {
        var target := None;
        if p :| 0 <= p < |s.producers| && s.producers[p].place == Asleep {
          target := Some(p);
        }
        step := ConsumerStep(c, Notify(target));
      } else {
        step := ConsumerStep(c, NextAct(s.consumers[c].place));
      }
  }

  lemma OthersCanStep(s: State) returns (step: Step)
    requires Mutex(s) && s.lock == Nobody && !Quiet(s)
    ensures Enabled(s, step) && step.act != WakeUp
  {
    if p :| 0 <= p < |s.producers| && s.producers[p] != Producer(Outside, []) && s.producers[p].place != Asleep {
      step := ProducerStep(p, Lock);
    } else {
      var c :| 0 <= c < |s.consumers| && s.consumers[c] != Consumer(Outside, 0) && s.consumers[c].place != Asleep;
      step := ConsumerStep(c, Lock);
    }
  }

  lemma StuckIsQuiet(s: State)
    requires Mutex(s) && CounterMutex(s) && Granted(s) && Stuck(s)
    ensures Quiet(s)
  {
    if s.lock != Nobody {
      var step := HolderCanStep(s);
    } else if !Quiet(s) {
      var step := OthersCanStep(s);
    }
  }

  lemma QuietCounts(s: State)
    requires Quiet(s)
    ensures Sum(s.producers, ProducerAlert) == 0 && Sum(s.producers, ProducerOwes) == 0
    ensures Sum(s.consumers, ConsumerAlert) == 0 && Sum(s.consumers, ConsumerOwes) == 0
  {
    SumZero(s.producers, ProducerAlert);
    SumZero(s.producers, ProducerOwes);
    SumZero(s.consumers, ConsumerAlert);
    SumZero(s.consumers, ConsumerOwes);
  }

  /** In a quiet state a sleeping producer faces a full buffer. */
  lemma QuietProducers(s: State)
    requires Granted(s) && RoomAnnounced(s) && Quiet(s)
    ensures ProducerAsleep(s) ==> s.size == s.capacity && Sum(s.producers, ProducerLeft) > 0
    ensures !ProducerAsleep(s) ==> Sum(s.producers, ProducerLeft) == 0
  {
    QuietCounts(s);
    if p :| 0 <= p < |s.producers| && s.producers[p].place == Asleep {
      SumAtLeast(s.producers, p, ProducerLeft);
    } else {
      SumZero(s.producers, ProducerLeft);
    }
  }

  /** In a quiet state a sleeping consumer faces an empty buffer. */
  lemma QuietConsumers(s: State)
    requires Granted(s) && ItemsAnnounced(s) && Quiet(s)
    ensures ConsumerAsleep(s) ==> s.size == 0 && Sum(s.consumers, ConsumerLeft) > 0
    ensures !ConsumerAsleep(s) ==> Sum(s.consumers, ConsumerLeft) == 0
  {
    QuietCounts(s);
    if c :| 0 <= c < |s.consumers| && s.consumers[c].place == Asleep {
      SumAtLeast(s.consumers, c, ConsumerLeft);
    } else {
      SumZero(s.consumers, ConsumerLeft);
    }
  }

  /**
   A state without a next step is finished exactly when the quotas can be met: what the
   producers make beyond what the consumers take must fit in the buffer, and a buffer
   without slots must not be asked for anything.
   */
  lemma StuckOutcome(s: State)
    requires Inv(s) && Stuck(s)
    ensures Finished(s) <==>
      0 <= Surplus(s) <= s.capacity
      && (s.capacity > 0 || (Sum(s.producers, ProducerLeft) == 0 && Sum(s.consumers, ConsumerLeft) == 0))
    ensures Finished(s) ==> s.size == Surplus(s)
  {
    StuckIsQuiet(s);
    QuietProducers(s);
    QuietConsumers(s);
    if Finished(s) {
      assert !ProducerAsleep(s) && !ConsumerAsleep(s);
    }
  }

  /**
   For equal totals and at least one slot, every run that cannot go on has met all quotas and left the
   counter empty.
   */
  lemma EqualQuotasFinish(run: seq<State>, steps: seq<Step>)
    requires IsRun(run, steps) && IsInitial(run[0]) && run[0].capacity >= 1
    requires Sum(run[0].producers, ProducerLeft) == Sum(run[0].consumers, ConsumerLeft)
    requires Stuck(run[|steps|])
    ensures Finished(run[|steps|]) && run[|steps|].size == 0 && run[|steps|].counter == map[]
  {
    var s := run[|steps|];
    RunKeepsInv(run, steps, |steps|);
    RunKeepsSurplus(run, steps, |steps|);
    StuckOutcome(s);
    CounterIsContent(s);
    assert s.slots[..s.size] == [];
    assert forall v :: v !in s.counter;
  }

  // ---------- Runs end ----------

  function Weight(at: Place, n: nat): nat {
    match at
    case Outside => 20 * n
    case Woken => if n == 0 then 0 else 20 * n - 1
    case Testing => if n == 0 then 0 else 20 * n - 2
    case Asleep => if n == 0 then 0 else 20 * n - 4
    case Moving => if n == 0 then 0 else 20 * n - 4
    case Moved(_) => 20 * n + 12
    case Auditing(_) => 20 * n + 11
    case Audited => 20 * n + 10
    case Notifying => 20 * n + 9
    case Leaving => 20 * n + 5
  }

  function ProducerWeight(p: Producer): nat { Weight(p.place, |p.todo|) }
  function ConsumerWeight(c: Consumer): nat { Weight(c.place, c.todo) }

  function Measure(s: State): nat {
    Sum(s.producers, ProducerWeight) + Sum(s.consumers, ConsumerWeight)
  }

  /** What a step costs the thread that takes it: notifying pays for the thread it may wake. */
  function Price(act: Act): int {
    match act
    case WakeUp => -3
    case Notify(_) => 4
    case _ => 1
  }

  lemma ProducerPays(s: State, p: nat, act: Act)
    requires Granted(s) && ProducerCan(s, p, act)
    ensures p < |ProducerDo(s, p, act).producers|
    ensures ProducerWeight(ProducerDo(s, p, act).producers[p]) <= ProducerWeight(s.producers[p]) - Price(act)
  {
  }

  lemma ConsumerPays(s: State, c: nat, act: Act)
    requires Granted(s) && ConsumerCan(s, c, act)
    ensures c < |ConsumerDo(s, c, act).consumers|
    ensures ConsumerWeight(ConsumerDo(s, c, act).consumers[c]) <= ConsumerWeight(s.consumers[c]) - Price(act)
  {
  }

  lemma ProducerSpends(s: State, p: nat, act: Act)
    requires Granted(s) && ProducerCan(s, p, act)
    ensures Measure(ProducerDo(s, p, act)) <= Measure(s) + (if act == WakeUp then 3 else -1)
  {
    var s' := ProducerDo(s, p, act);
    ProducerPays(s, p, act);
    ProducerMoves(s, p, act);
    SumUpdate(s.producers, p, s'.producers[p], ProducerWeight);
    if act.Notify? && act.target.Some? {
      SumUpdate(s.consumers, act.target.value, s.consumers[act.target.value].(place := Woken), ConsumerWeight);
    }
  }

  lemma ConsumerSpends(s: State, c: nat, act: Act)
    requires Granted(s) && ConsumerCan(s, c, act)
    ensures Measure(ConsumerDo(s, c, act)) <= Measure(s) + (if act == WakeUp then 3 else -1)
  {
    var s' := ConsumerDo(s, c, act);
    ConsumerPays(s, c, act);
    ConsumerMoves(s, c, act);
    SumUpdate(s.consumers, c, s'.consumers[c], ConsumerWeight);
    if act.Notify? && act.target.Some? {
      SumUpdate(s.producers, act.target.value, s.producers[act.target.value].(place := Woken), ProducerWeight);
    }
  }

  function SpuriousCount(steps: seq<Step>): nat {
    if steps == [] then 0
    else SpuriousCount(steps[..|steps| - 1]) + (if steps[|steps| - 1].act == WakeUp then 1 else 0)
  }

  lemma {:induction false} RunSpends(run: seq<State>, steps: seq<Step>, k: nat)
    requires IsRun(run, steps) && IsInitial(run[0]) && k <= |steps|
    ensures k + Measure(run[k]) <= Measure(run[0]) + 4 * SpuriousCount(steps[..k])
  {
    if k != 0 {
      RunSpends(run, steps, k - 1);
      RunKeepsInv(run, steps, k - 1);
      match steps[k - 1] {
        case ProducerStep(p, act) => ProducerSpends(run[k - 1], p, act);
        case ConsumerStep(c, act) => ConsumerSpends(run[k - 1], c, act);
      }
      assert steps[..k][..k - 1] == steps[..k - 1];
    }
  }

  /** The length of a run is bounded by the quotas and the number of spurious wakeups in it. */
  lemma RunsAreBounded(run: seq<State>, steps: seq<Step>)
    requires IsRun(run, steps) && IsInitial(run[0])
    ensures |steps| <= 20 * (Sum(run[0].producers, ProducerLeft) + Sum(run[0].consumers, ConsumerLeft))
      + 4 * SpuriousCount(steps)
  {
    RunSpends(run, steps, |steps|);
    assert steps[..|steps|] == steps;
    SumScaled(run[0].producers, ProducerWeight, ProducerLeft, 20);
    SumScaled(run[0].consumers, ConsumerWeight, ConsumerLeft, 20);
  }
}
