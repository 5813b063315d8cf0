/**
 The bounded buffer's audit counter is exact whenever no thread is inside, no wakeup
 is lost, and the threads end exactly when the quotas allow it.
 */
module BoundedBufferProof {
  import opened Wrappers
  import opened Sums
  import opened BoundedBuffer

  // ---------- Mutual exclusion ----------

  predicate Inside(at: Place) {
    at !in {Outside, Asleep, Woken}
  }

  predicate InsideCounter(at: Place) {
    at.Auditing? || at == Audited
  }

  ghost predicate Mutex(s: State) {
    && (forall p :: 0 <= p < |s.producers| ==> (Inside(s.producers[p].place) <==> s.lock == ByProducer(p)))
    && (forall c :: 0 <= c < |s.consumers| ==> (Inside(s.consumers[c].place) <==> s.lock == ByConsumer(c)))
    && (s.lock.ByProducer? ==> s.lock.p < |s.producers|)
    && (s.lock.ByConsumer? ==> s.lock.c < |s.consumers|)
  }

  /** The counter's mutex is only ever taken by the thread that holds the buffer's. */
  ghost predicate CounterMutex(s: State) {
    && (forall p :: 0 <= p < |s.producers| ==>
         (InsideCounter(s.producers[p].place) <==> s.counterLock == ByProducer(p)))
    && (forall c :: 0 <= c < |s.consumers| ==>
         (InsideCounter(s.consumers[c].place) <==> s.counterLock == ByConsumer(c)))
    && (s.counterLock != Nobody ==> s.counterLock == s.lock)
  }

  predicate InCall(at: Place) {
    at in {Testing, Asleep, Woken, Moving}
  }

  ghost predicate Granted(s: State) {
    && |s.slots| == s.capacity && s.size <= s.capacity
    && (forall p :: 0 <= p < |s.producers| && s.producers[p].place == Moving ==> s.size < s.capacity)
    && (forall c :: 0 <= c < |s.consumers| && s.consumers[c].place == Moving ==> s.size > 0)
    && (forall p :: 0 <= p < |s.producers| && InCall(s.producers[p].place) ==> s.producers[p].todo != [])
    && (forall c :: 0 <= c < |s.consumers| && InCall(s.consumers[c].place) ==> s.consumers[c].todo > 0)
  }

  lemma ProducerKeepsMutex(s: State, p: nat, act: Act)
    requires Mutex(s) && CounterMutex(s) && ProducerCan(s, p, act)
    ensures Mutex(ProducerDo(s, p, act))
  {
  }

  lemma ConsumerKeepsMutex(s: State, c: nat, act: Act)
    requires Mutex(s) && CounterMutex(s) && ConsumerCan(s, c, act)
    ensures Mutex(ConsumerDo(s, c, act))
  {
  }

  lemma ProducerKeepsCounterMutex(s: State, p: nat, act: Act)
    requires Mutex(s) && CounterMutex(s) && ProducerCan(s, p, act)
    ensures CounterMutex(ProducerDo(s, p, act))
  {
  }

  lemma ConsumerKeepsCounterMutex(s: State, c: nat, act: Act)
    requires Mutex(s) && CounterMutex(s) && ConsumerCan(s, c, act)
    ensures CounterMutex(ConsumerDo(s, c, act))
  {
  }

  lemma ProducerKeepsGranted(s: State, p: nat, act: Act)
    requires Mutex(s) && Granted(s) && ProducerCan(s, p, act)
    ensures Granted(ProducerDo(s, p, act))
  {
  }

  lemma ConsumerKeepsGranted(s: State, c: nat, act: Act)
    requires Mutex(s) && Granted(s) && ConsumerCan(s, c, act)
    ensures Granted(ConsumerDo(s, c, act))
  {
  }

  // ---------- The audit counter ----------

  /** A number moved into or out of the slots that the counter does not know about yet. */
  function Unknown(at: Place, v: int): nat {
    if at == Moved(v) || at == Auditing(v) then 1 else 0
  }

  function UnknownIn(v: int): Producer -> nat {
    (p: Producer) => Unknown(p.place, v)
  }

  function UnknownOut(v: int): Consumer -> nat {
    (c: Consumer) => Unknown(c.place, v)
  }

  ghost function Content(s: State): multiset<int>
    requires s.size <= |s.slots|
  {
    multiset(s.slots[..s.size])
  }

  ghost predicate AuditedFor(s: State, v: int)
    requires s.size <= |s.slots|
  {
    Content(s)[v] + Sum(s.consumers, UnknownOut(v)) == Tally(s.counter, v) + Sum(s.producers, UnknownIn(v))
  }

  ghost predicate CounterExact(s: State)
    requires s.size <= |s.slots|
  {
    && (forall v :: AuditedFor(s, v))
    && (forall v :: v in s.counter ==> s.counter[v] > 0)
  }

  lemma ContentWithout(s: State, v: int)
    requires 0 < s.size <= |s.slots|
    ensures multiset(s.slots[..s.size])[v] == multiset(s.slots[..s.size - 1])[v] + multiset{s.slots[s.size - 1]}[v]
  {
    assert s.slots[..s.size] == s.slots[..s.size - 1] + [s.slots[s.size - 1]];
  }

  lemma ContentWith(s: State, task: int, v: int)
    requires s.size < |s.slots|
    ensures multiset(s.slots[s.size := task][..s.size + 1])[v] == multiset(s.slots[..s.size])[v] + multiset{task}[v]
  {
    assert s.slots[s.size := task][..s.size + 1] == s.slots[..s.size] + [task];
  }

  /** One statement of a producer moves at most one number from one of its places to the next. */
  lemma ProducerMovesOne(s: State, p: nat, act: Act, v: int)
    requires s.size <= |s.slots| && ProducerCan(s, p, act)
    ensures ProducerDo(s, p, act).size <= |ProducerDo(s, p, act).slots| && p < |ProducerDo(s, p, act).producers|
    ensures var s' := ProducerDo(s, p, act);
      (Content(s')[v] as int - Content(s)[v]
        == Tally(s'.counter, v) - Tally(s.counter, v)
          + Unknown(s'.producers[p].place, v) - Unknown(s.producers[p].place, v))
  {
    if act == Move {
      ContentWith(s, s.producers[p].todo[0], v);
    }
  }

  lemma ConsumerMovesOne(s: State, c: nat, act: Act, v: int)
    requires s.size <= |s.slots| && ConsumerCan(s, c, act)
    ensures ConsumerDo(s, c, act).size <= |ConsumerDo(s, c, act).slots| && c < |ConsumerDo(s, c, act).consumers|
    ensures var s' := ConsumerDo(s, c, act);
      (Content(s')[v] as int - Content(s)[v]
        == Tally(s'.counter, v) - Tally(s.counter, v)
          - Unknown(s'.consumers[c].place, v) + Unknown(s.consumers[c].place, v))
  {
    if act == Move {
      ContentWithout(s, v);
    }
  }

  lemma ProducerKeepsAudited(s: State, p: nat, act: Act, v: int)
    requires s.size <= |s.slots| && AuditedFor(s, v) && ProducerCan(s, p, act)
    ensures ProducerDo(s, p, act).size <= |ProducerDo(s, p, act).slots| && AuditedFor(ProducerDo(s, p, act), v)
  {
    ProducerMovesOne(s, p, act, v);
    ProducerMoves(s, p, act);
    SumUpdate(s.producers, p, ProducerDo(s, p, act).producers[p], UnknownIn(v));
    SumSame(s.consumers, ProducerDo(s, p, act).consumers, UnknownOut(v));
  }

  lemma ConsumerKeepsAudited(s: State, c: nat, act: Act, v: int)
    requires s.size <= |s.slots| && AuditedFor(s, v) && ConsumerCan(s, c, act)
    ensures ConsumerDo(s, c, act).size <= |ConsumerDo(s, c, act).slots| && AuditedFor(ConsumerDo(s, c, act), v)
  {
    ConsumerMovesOne(s, c, act, v);
    ConsumerMoves(s, c, act);
    SumUpdate(s.consumers, c, ConsumerDo(s, c, act).consumers[c], UnknownOut(v));
    SumSame(s.producers, ConsumerDo(s, c, act).producers, UnknownIn(v));
  }

  /** A step of one thread changes only that thread, and at most wakes a sleeper of the other side. */
  lemma ProducerMoves(s: State, p: nat, act: Act)
    requires ProducerCan(s, p, act)
    ensures var s' := ProducerDo(s, p, act);
      && |s'.producers| == |s.producers| && s'.producers == s.producers[p := s'.producers[p]]
      && |s'.consumers| == |s.consumers|
      && forall c :: 0 <= c < |s.consumers| ==>
           s'.consumers[c] == s.consumers[c]
           || (s.consumers[c].place == Asleep && s'.consumers[c] == s.consumers[c].(place := Woken))
  {
  }

  lemma ConsumerMoves(s: State, c: nat, act: Act)
    requires ConsumerCan(s, c, act)
    ensures var s' := ConsumerDo(s, c, act);
      && |s'.consumers| == |s.consumers| && s'.consumers == s.consumers[c := s'.consumers[c]]
      && |s'.producers| == |s.producers|
      && forall p :: 0 <= p < |s.producers| ==>
           s'.producers[p] == s.producers[p]
           || (s.producers[p].place == Asleep && s'.producers[p] == s.producers[p].(place := Woken))
  {
  }

  /** The entry that a consumer is about to decrement is positive. */
  lemma EntryIsPositive(s: State, c: nat)
    requires Mutex(s) && s.size <= |s.slots| && CounterExact(s)
    requires c < |s.consumers| && s.consumers[c].place.Auditing?
    ensures Tally(s.counter, s.consumers[c].place.task) > 0
  {
    var v := s.consumers[c].place.task;
    assert AuditedFor(s, v);
    SumAtLeast(s.consumers, c, UnknownOut(v));
    SumZero(s.producers, UnknownIn(v));
  }

  lemma StepKeepsCounterExact(s: State, step: Step)
    requires Mutex(s) && s.size <= |s.slots| && CounterExact(s) && Enabled(s, step)
    ensures Do(s, step).size <= |Do(s, step).slots| && CounterExact(Do(s, step))
  {
    match step
    case ProducerStep(p, act) =>
      forall v
        ensures ProducerDo(s, p, act).size <= |s.slots| && AuditedFor(ProducerDo(s, p, act), v)
      {
        ProducerKeepsAudited(s, p, act, v);
      }
      CounterStaysPositive(s, step);
    case ConsumerStep(c, act) =>
      forall v
        ensures ConsumerDo(s, c, act).size <= |s.slots| && AuditedFor(ConsumerDo(s, c, act), v)
      {
        ConsumerKeepsAudited(s, c, act, v);
      }
      CounterStaysPositive(s, step);
  }

  lemma CounterStaysPositive(s: State, step: Step)
    requires Mutex(s) && s.size <= |s.slots| && CounterExact(s) && Enabled(s, step)
    ensures forall v :: v in Do(s, step).counter ==> Do(s, step).counter[v] > 0
  {
    if step.ConsumerStep? && step.act == Audit {
      EntryIsPositive(s, step.c);
    }
  }

  // ---------- Wakeups ----------

  function Alert(at: Place): nat {
    if at == Woken || at == Testing || at == Moving then 1 else 0
  }

  /** Between moving a number and notifying the other side about it. */
  function Owes(at: Place): nat {
    if at.Moved? || at.Auditing? || at == Audited || at == Notifying then 1 else 0
  }

  function ProducerAlert(p: Producer): nat { Alert(p.place) }
  function ProducerOwes(p: Producer): nat { Owes(p.place) }
  function ConsumerAlert(c: Consumer): nat { Alert(c.place) }
  function ConsumerOwes(c: Consumer): nat { Owes(c.place) }

  ghost predicate ProducerAsleep(s: State) {
    exists p :: 0 <= p < |s.producers| && s.producers[p].place == Asleep
  }

  ghost predicate ConsumerAsleep(s: State) {
    exists c :: 0 <= c < |s.consumers| && s.consumers[c].place == Asleep
  }

  /** While a producer sleeps, every free slot has a wakeup on its way. */
  ghost predicate RoomAnnounced(s: State) {
    ProducerAsleep(s) ==> s.capacity <= s.size + Sum(s.producers, ProducerAlert) + Sum(s.consumers, ConsumerOwes)
  }

  /** While a consumer sleeps, every full slot has a wakeup on its way. */
  ghost predicate ItemsAnnounced(s: State) {
    ConsumerAsleep(s) ==> s.size <= Sum(s.consumers, ConsumerAlert) + Sum(s.producers, ProducerOwes)
  }

  function WakesOne(act: Act): nat {
    if act.Notify? && act.target.Some? then 1 else 0
  }

  lemma WakingConsumers(s: State, target: Option<nat>)
    requires PicksConsumer(s, target)
    ensures var cs := if target.Some? then PlaceConsumer(s, target.value, Woken).consumers else s.consumers;
      && Sum(cs, ConsumerAlert) == Sum(s.consumers, ConsumerAlert) + (if target.Some? then 1 else 0)
      && Sum(cs, ConsumerOwes) == Sum(s.consumers, ConsumerOwes)
  {
    if target.Some? {
      var c := target.value;
      SumUpdate(s.consumers, c, s.consumers[c].(place := Woken), ConsumerAlert);
      SumUpdate(s.consumers, c, s.consumers[c].(place := Woken), ConsumerOwes);
    }
  }

  lemma WakingProducers(s: State, target: Option<nat>)
    requires PicksProducer(s, target)
    ensures var ps := if target.Some? then PlaceProducer(s, target.value, Woken).producers else s.producers;
      && Sum(ps, ProducerAlert) == Sum(s.producers, ProducerAlert) + (if target.Some? then 1 else 0)
      && Sum(ps, ProducerOwes) == Sum(s.producers, ProducerOwes)
  {
    if target.Some? {
      var p := target.value;
      SumUpdate(s.producers, p, s.producers[p].(place := Woken), ProducerAlert);
      SumUpdate(s.producers, p, s.producers[p].(place := Woken), ProducerOwes);
    }
  }

  lemma ProducerChangesCounts(s: State, p: nat, act: Act)
    requires ProducerCan(s, p, act)
    ensures |ProducerDo(s, p, act).producers| == |s.producers|
    ensures var s', at := ProducerDo(s, p, act), s.producers[p].place;
      var at' := s'.producers[p].place;
      && Sum(s'.producers, ProducerAlert) + Alert(at) == Sum(s.producers, ProducerAlert) + Alert(at')
      && Sum(s'.producers, ProducerOwes) + Owes(at) == Sum(s.producers, ProducerOwes) + Owes(at')
      && Sum(s'.consumers, ConsumerAlert) == Sum(s.consumers, ConsumerAlert) + WakesOne(act)
      && Sum(s'.consumers, ConsumerOwes) == Sum(s.consumers, ConsumerOwes)
  {
    var s' := ProducerDo(s, p, act);
    ProducerMoves(s, p, act);
    SumUpdate(s.producers, p, s'.producers[p], ProducerAlert);
    SumUpdate(s.producers, p, s'.producers[p], ProducerOwes);
    if act.Notify? {
      WakingConsumers(s, act.target);
    }
  }

  lemma ConsumerChangesCounts(s: State, c: nat, act: Act)
    requires ConsumerCan(s, c, act)
    ensures |ConsumerDo(s, c, act).consumers| == |s.consumers|
    ensures var s', at := ConsumerDo(s, c, act), s.consumers[c].place;
      var at' := s'.consumers[c].place;
      && Sum(s'.consumers, ConsumerAlert) + Alert(at) == Sum(s.consumers, ConsumerAlert) + Alert(at')
      && Sum(s'.consumers, ConsumerOwes) + Owes(at) == Sum(s.consumers, ConsumerOwes) + Owes(at')
      && Sum(s'.producers, ProducerAlert) == Sum(s.producers, ProducerAlert) + WakesOne(act)
      && Sum(s'.producers, ProducerOwes) == Sum(s.producers, ProducerOwes)
  {
    var s' := ConsumerDo(s, c, act);
    ConsumerMoves(s, c, act);
    SumUpdate(s.consumers, c, s'.consumers[c], ConsumerAlert);
    SumUpdate(s.consumers, c, s'.consumers[c], ConsumerOwes);
    if act.Notify? {
      WakingProducers(s, act.target);
    }
  }

  lemma ProducerSleepers(s: State, step: Step)
    requires Enabled(s, step) && ProducerAsleep(Do(s, step))
    ensures ProducerAsleep(s) || (step.ProducerStep? && step.act == Test && s.size >= s.capacity)
    ensures step.ConsumerStep? && step.act.Notify? ==> step.act.target.Some?
  {
    var s' := Do(s, step);
    var v :| 0 <= v < |s'.producers| && s'.producers[v].place == Asleep;
    if s.producers[v].place != Asleep {
      assert step.ProducerStep? && step.p == v;
    }
  }

  lemma ConsumerSleepers(s: State, step: Step)
    requires Enabled(s, step) && ConsumerAsleep(Do(s, step))
    ensures ConsumerAsleep(s) || (step.ConsumerStep? && step.act == Test && s.size == 0)
    ensures step.ProducerStep? && step.act.Notify? ==> step.act.target.Some?
  {
    var s' := Do(s, step);
    var v :| 0 <= v < |s'.consumers| && s'.consumers[v].place == Asleep;
    if s.consumers[v].place != Asleep {
      assert step.ConsumerStep? && step.c == v;
    }
  }

  lemma ProducerKeepsAnnounced(s: State, p: nat, act: Act)
    requires RoomAnnounced(s) && ItemsAnnounced(s) && ProducerCan(s, p, act)
    ensures RoomAnnounced(ProducerDo(s, p, act)) && ItemsAnnounced(ProducerDo(s, p, act))
  {
    ProducerChangesCounts(s, p, act);
    if ProducerAsleep(ProducerDo(s, p, act)) { ProducerSleepers(s, ProducerStep(p, act)); }
    if ConsumerAsleep(ProducerDo(s, p, act)) { ConsumerSleepers(s, ProducerStep(p, act)); }
  }

  lemma ConsumerKeepsAnnounced(s: State, c: nat, act: Act)
    requires RoomAnnounced(s) && ItemsAnnounced(s) && ConsumerCan(s, c, act)
    ensures RoomAnnounced(ConsumerDo(s, c, act)) && ItemsAnnounced(ConsumerDo(s, c, act))
  {
    ConsumerChangesCounts(s, c, act);
    if ProducerAsleep(ConsumerDo(s, c, act)) { ProducerSleepers(s, ConsumerStep(c, act)); }
    if ConsumerAsleep(ConsumerDo(s, c, act)) { ConsumerSleepers(s, ConsumerStep(c, act)); }
  }
}
