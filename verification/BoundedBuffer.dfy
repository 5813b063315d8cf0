/**
 The bounded buffer as a system of producer and consumer threads taking atomic steps.

 A fixed array of slots behind one mutex and two condition variables, and a global
 counter of the numbers in the buffer behind a second mutex that is taken inside the
 first.  Each step is one statement of one thread; waiting threads may wake spuriously.
 */
module BoundedBuffer {
  import opened Wrappers

  /** Where a thread is in its current call of produce or consume. */
  datatype Place =
    | Outside                 // between calls, or about to lock the mutex
    | Testing                 // holds the mutex, about to evaluate the wait predicate
    | Asleep                  // waiting on its condition variable, mutex released
    | Woken                   // out of the wait, must lock the mutex again
    | Moving                  // holds the mutex, about to write or read a slot
    | Moved(task: int)        // about to lock the counter's mutex
    | Auditing(task: int)     // holds both, about to update the counter
    | Audited                 // holds both, about to release the counter's mutex
    | Notifying               // holds the mutex, about to notify the other side
    | Leaving                 // about to release the mutex

  /** A producer, with the numbers it still has to produce. */
  datatype Producer = Producer(place: Place, todo: seq<int>)

  /** A consumer, with how many numbers it still has to consume. */
  datatype Consumer = Consumer(place: Place, todo: nat)

  datatype Holder = Nobody | ByProducer(p: nat) | ByConsumer(c: nat)

  datatype State = State(
    capacity: nat,
    slots: seq<int>,
    size: nat,
    lock: Holder,
    counterLock: Holder,
    counter: map<int, int>,
    producers: seq<Producer>,
    consumers: seq<Consumer>)

  datatype Act =
    | Lock
    | Test
    | Move
    | LockCounter
    | Audit
    | UnlockCounter
    | Notify(target: Option<nat>)
    | Unlock
    | WakeUp

  datatype Step = ProducerStep(p: nat, act: Act) | ConsumerStep(c: nat, act: Act)

  ghost predicate IsInitial(s: State) {
    && |s.slots| == s.capacity && s.size == 0 && s.lock == Nobody && s.counterLock == Nobody && s.counter == map[]
    && (forall p :: 0 <= p < |s.producers| ==> s.producers[p].place == Outside)
    && (forall c :: 0 <= c < |s.consumers| ==> s.consumers[c].place == Outside)
  }

  /** notify_one wakes one sleeper of the other side if there is one, and is lost otherwise. */
  ghost predicate PicksConsumer(s: State, target: Option<nat>) {
    match target
    case Some(c) => c < |s.consumers| && s.consumers[c].place == Asleep
    case None => forall c :: 0 <= c < |s.consumers| ==> s.consumers[c].place != Asleep
  }

  ghost predicate PicksProducer(s: State, target: Option<nat>) {
    match target
    case Some(p) => p < |s.producers| && s.producers[p].place == Asleep
    case None => forall p :: 0 <= p < |s.producers| ==> s.producers[p].place != Asleep
  }

  ghost predicate ProducerCan(s: State, p: nat, act: Act) {
    && p < |s.producers|
    && var at := s.producers[p].place;
       match act
       case Lock => (at == Woken || (at == Outside && s.producers[p].todo != [])) && s.lock == Nobody
       case Test => at == Testing
       case Move => at == Moving && s.producers[p].todo != [] && s.size < |s.slots|
       case LockCounter => at.Moved? && s.counterLock == Nobody
       case Audit => at.Auditing?
       case UnlockCounter => at == Audited
       case Notify(target) => at == Notifying && PicksConsumer(s, target)
       case Unlock => at == Leaving
       case WakeUp => at == Asleep
  }

  ghost predicate ConsumerCan(s: State, c: nat, act: Act) {
    && c < |s.consumers|
    && var at := s.consumers[c].place;
       match act
       case Lock => (at == Woken || (at == Outside && s.consumers[c].todo > 0)) && s.lock == Nobody
       case Test => at == Testing
       case Move => at == Moving && s.consumers[c].todo > 0 && 0 < s.size <= |s.slots|
       case LockCounter => at.Moved? && s.counterLock == Nobody
       case Audit => at.Auditing?
       case UnlockCounter => at == Audited
       case Notify(target) => at == Notifying && PicksProducer(s, target)
       case Unlock => at == Leaving
       case WakeUp => at == Asleep
  }

  ghost predicate Enabled(s: State, step: Step) {
    match step
    case ProducerStep(p, act) => ProducerCan(s, p, act)
    case ConsumerStep(c, act) => ConsumerCan(s, c, act)
  }

  function PlaceProducer(s: State, p: nat, at: Place): State
    requires p < |s.producers|
  {
    s.(producers := s.producers[p := s.producers[p].(place := at)])
  }

  function PlaceConsumer(s: State, c: nat, at: Place): State
    requires c < |s.consumers|
  {
    s.(consumers := s.consumers[c := s.consumers[c].(place := at)])
  }

  /** An entry that the counter does not have reads as zero. */
  function Tally(counter: map<int, int>, v: int): int {
    if v in counter then counter[v] else 0
  }

  function CountUp(counter: map<int, int>, v: int): map<int, int> {
    counter[v := Tally(counter, v) + 1]
  }

  /** Decrements the entry, and erases it when it becomes zero. */
  function CountDown(counter: map<int, int>, v: int): map<int, int> {
    if Tally(counter, v) - 1 == 0 then counter - {v} else counter[v := Tally(counter, v) - 1]
  }

  function ProducerDo(s: State, p: nat, act: Act): State
    requires ProducerCan(s, p, act)
  {
    match act
    case Lock => PlaceProducer(s, p, Testing).(lock := ByProducer(p))
    case Test =>
      if s.size < s.capacity then PlaceProducer(s, p, Moving)
      else PlaceProducer(s, p, Asleep).(lock := Nobody)
    case Move =>
      var task := s.producers[p].todo[0];
      s.(producers := s.producers[p := Producer(Moved(task), s.producers[p].todo[1..])],
         slots := s.slots[s.size := task], size := s.size + 1)
    case LockCounter => PlaceProducer(s, p, Auditing(s.producers[p].place.task)).(counterLock := ByProducer(p))
    case Audit => PlaceProducer(s, p, Audited).(counter := CountUp(s.counter, s.producers[p].place.task))
    case UnlockCounter => PlaceProducer(s, p, Notifying).(counterLock := Nobody)
    case Notify(target) =>
      var s' := PlaceProducer(s, p, Leaving);
      if target.None? then s' else PlaceConsumer(s', target.value, Woken)
    case Unlock => PlaceProducer(s, p, Outside).(lock := Nobody)
    case WakeUp => PlaceProducer(s, p, Woken)
  }

  function ConsumerDo(s: State, c: nat, act: Act): State
    requires ConsumerCan(s, c, act)
  {
    match act
    case Lock => PlaceConsumer(s, c, Testing).(lock := ByConsumer(c))
    case Test =>
      if s.size > 0 then PlaceConsumer(s, c, Moving)
      else PlaceConsumer(s, c, Asleep).(lock := Nobody)
    case Move =>
      s.(consumers := s.consumers[c := Consumer(Moved(s.slots[s.size - 1]), s.consumers[c].todo - 1)],
         size := s.size - 1)
    case LockCounter => PlaceConsumer(s, c, Auditing(s.consumers[c].place.task)).(counterLock := ByConsumer(c))
    case Audit => PlaceConsumer(s, c, Audited).(counter := CountDown(s.counter, s.consumers[c].place.task))
    case UnlockCounter => PlaceConsumer(s, c, Notifying).(counterLock := Nobody)
    case Notify(target) =>
      var s' := PlaceConsumer(s, c, Leaving);
      if target.None? then s' else PlaceProducer(s', target.value, Woken)
    case Unlock => PlaceConsumer(s, c, Outside).(lock := Nobody)
    case WakeUp => PlaceConsumer(s, c, Woken)
  }

  function Do(s: State, step: Step): State
    requires Enabled(s, step)
  {
    match step
    case ProducerStep(p, act) => ProducerDo(s, p, act)
    case ConsumerStep(c, act) => ConsumerDo(s, c, act)
  }
}
