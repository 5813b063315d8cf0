/** Which number goes where: a producer's numbers in their order, and the last one put in taken out first. */
module BoundedBufferOrder {
  import opened BoundedBuffer
  import opened BoundedBufferProof
  import opened BoundedBufferRuns

  // ---------- Last in, first out ----------

  /** A producer puts v into the buffer. */
  ghost predicate PutsIn(step: Step, s': State, v: int) {
    step.ProducerStep? && step.p < |s'.producers| && s'.producers[step.p].place == Moved(v)
  }

  /** A consumer takes v out of it. */
  ghost predicate TakesOut(step: Step, s': State, v: int) {
    step.ConsumerStep? && step.c < |s'.consumers| && s'.consumers[step.c].place == Moved(v)
  }

  lemma StepFills(s: State, step: Step, v: int)
    requires Granted(s) && Enabled(s, step)
    requires Do(s, step).size == s.size + 1 && PutsIn(step, Do(s, step), v)
    ensures s.size < |Do(s, step).slots| && Do(s, step).slots[s.size] == v
  {
  }

  lemma StepKeepsSlot(s: State, step: Step, n: nat)
    requires Granted(s) && Enabled(s, step) && s.size > n && Do(s, step).size > n
    ensures n < |s.slots| == |Do(s, step).slots| && Do(s, step).slots[n] == s.slots[n]
  {
  }

  lemma StepEmpties(s: State, step: Step)
    requires Granted(s) && Enabled(s, step) && Do(s, step).size < s.size
    ensures Do(s, step).size == s.size - 1 < |s.slots| && TakesOut(step, Do(s, step), s.slots[s.size - 1])
  {
  }

  lemma SlotIsFilled(run: seq<State>, steps: seq<Step>, i: nat, v: int)
    requires IsRun(run, steps) && IsInitial(run[0]) && i < |steps|
    requires run[i + 1].size == run[i].size + 1 && PutsIn(steps[i], run[i + 1], v)
    ensures run[i].size < |run[i + 1].slots| && run[i + 1].slots[run[i].size] == v
  {
    RunKeepsInv(run, steps, i);
    StepFills(run[i], steps[i], v);
  }

  lemma SlotIsKept(run: seq<State>, steps: seq<Step>, k: nat, n: nat)
    requires IsRun(run, steps) && IsInitial(run[0]) && k < |steps| && run[k].size > n && run[k + 1].size > n
    ensures n < |run[k].slots| == |run[k + 1].slots| && run[k + 1].slots[n] == run[k].slots[n]
  {
    RunKeepsInv(run, steps, k);
    StepKeepsSlot(run[k], steps[k], n);
  }

  lemma {:induction false} SlotStays(run: seq<State>, steps: seq<Step>, from: nat, to: nat, n: nat)
    requires IsRun(run, steps) && IsInitial(run[0]) && from <= to < |run|
    requires forall l :: from <= l <= to ==> run[l].size > n
    ensures |run[to].slots| == |run[from].slots|
    ensures n < |run[from].slots| ==> run[to].slots[n] == run[from].slots[n]
  {
    if from < to {
      SlotStays(run, steps, from, to - 1, n);
      SlotIsKept(run, steps, to - 1, n);
    }
  }

  /** A number that raises the size is the one taken out when the size first falls back. */
  lemma LastInFirstOut(run: seq<State>, steps: seq<Step>, i: nat, j: nat, v: int)
    requires IsRun(run, steps) && IsInitial(run[0]) && i < j < |steps|
    requires run[i + 1].size == run[i].size + 1 && PutsIn(steps[i], run[i + 1], v)
    requires forall l :: i < l <= j ==> run[l].size > run[i].size
    requires run[j + 1].size == run[i].size
    ensures TakesOut(steps[j], run[j + 1], v)
  {
    SlotIsFilled(run, steps, i, v);
    SlotStays(run, steps, i + 1, j, run[i].size);
    RunKeepsInv(run, steps, j);
    StepEmpties(run[j], steps[j]);
  }

  // ---------- Each producer's numbers ----------

  /** What a step puts into the buffer for producer p. */
  function PutBy(s: State, step: Step, s': State, p: nat): seq<int> {
    if step.ProducerStep? && step.p == p && p < |s'.producers| && s'.size > s.size && s'.producers[p].place.Moved?
    then [s'.producers[p].place.task]
    else []
  }

  /** What the first k steps of a run put in for producer p, in order. */
  function PutFrom(run: seq<State>, steps: seq<Step>, p: nat, k: nat): seq<int>
    requires k < |run| && k <= |steps|
  {
    if k == 0 then []
    else PutFrom(run, steps, p, k - 1) + PutBy(run[k - 1], steps[k - 1], run[k], p)
  }

  lemma StepPutsFirst(s: State, step: Step, p: nat)
    requires Enabled(s, step) && p < |s.producers|
    ensures |Do(s, step).producers| == |s.producers|
    ensures PutBy(s, step, Do(s, step), p) + Do(s, step).producers[p].todo == s.producers[p].todo
  {
    if step.ProducerStep? && step.p == p && step.act == Move {
      var todo := s.producers[p].todo;
      assert [todo[0]] + todo[1..] == todo;
    }
  }

  lemma PutsGoOn(before: seq<int>, put: seq<int>, todo: seq<int>, rest: seq<int>, all: seq<int>)
    requires before + todo == all && put + rest == todo
    ensures before + put + rest == all
  {
    assert before + put + rest == before + (put + rest);
  }

  /** A producer's numbers go in one by one in the order given; the rest are still to come. */
  lemma {:induction false} PutInOrder(run: seq<State>, steps: seq<Step>, p: nat, k: nat)
    requires IsRun(run, steps) && k < |run| && p < |run[0].producers|
    ensures |run[k].producers| == |run[0].producers|
    ensures PutFrom(run, steps, p, k) + run[k].producers[p].todo == run[0].producers[p].todo
  {
    if k != 0 {
      PutInOrder(run, steps, p, k - 1);
      var s, step := run[k - 1], steps[k - 1];
      StepPutsFirst(s, step, p);
      PutsGoOn(PutFrom(run, steps, p, k - 1), PutBy(s, step, run[k], p), s.producers[p].todo,
               run[k].producers[p].todo, run[0].producers[p].todo);
    }
  }
}
