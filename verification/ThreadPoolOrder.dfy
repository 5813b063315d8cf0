/** The tasks of one client are accepted in the order of its calls of enqueue. */
module ThreadPoolOrder {
  import opened ThreadPool
  import opened ThreadPoolRuns

  /** What has been accepted between two states. */
  function NewlyAccepted(s: State, s': State): seq<Task> {
    if |s.accepted| <= |s'.accepted| then s'.accepted[|s.accepted|..] else []
  }

  /** What a step accepts from client c. */
  function AcceptedBy(s: State, step: Step, s': State, c: nat): seq<Task> {
    if step.ClientStep? && step.c == c then NewlyAccepted(s, s') else []
  }

  /** What the first k steps of a run accept from client c, in order. */
  function AcceptedFrom(run: seq<State>, steps: seq<Step>, c: nat, k: nat): seq<Task>
    requires k < |run| && k <= |steps|
  {
    if k == 0 then []
    else AcceptedFrom(run, steps, c, k - 1) + AcceptedBy(run[k - 1], steps[k - 1], run[k], c)
  }

  /** From s to s' client c has made the calls of done, and none after stop. */
  ghost predicate MadeCalls(s: State, s': State, c: nat, done: seq<Task>)
    requires c < |s.clients|
  {
    && |s'.clients| == |s.clients|
    && (s.stop ==> s'.stop && done == [])
    && (!s.stop ==> done + s'.clients[c].calls == s.clients[c].calls)
  }

  lemma ClientMakesCalls(s: State, i: nat, act: ClientAct, c: nat)
    requires ClientCan(s, i, act) && c < |s.clients|
    ensures MadeCalls(s, ClientDo(s, i, act), c, if i == c then NewlyAccepted(s, ClientDo(s, i, act)) else [])
  {
    if act == Push && i == c && !s.stop {
      var calls := s.clients[c].calls;
      assert NewlyAccepted(s, ClientDo(s, i, act)) == [calls[0]];
      assert [calls[0]] + calls[1..] == calls;
    }
  }

  lemma StepMakesCalls(s: State, step: Step, c: nat)
    requires Enabled(s, step) && c < |s.clients|
    ensures MadeCalls(s, Do(s, step), c, AcceptedBy(s, step, Do(s, step), c))
  {
    if step.ClientStep? {
      ClientMakesCalls(s, step.c, step.client, c);
    }
  }

  lemma CallsGoOn(calls: seq<Task>, accepted: seq<Task>, s: State, s': State, c: nat, done: seq<Task>)
    requires c < |s.clients| && MadeCalls(s, s', c, done)
    requires accepted <= calls && (!s.stop ==> accepted + s.clients[c].calls == calls)
    ensures accepted + done <= calls && (!s'.stop ==> accepted + done + s'.clients[c].calls == calls)
  {
    if !s.stop {
      assert accepted + done + s'.clients[c].calls == accepted + (done + s'.clients[c].calls);
    }
  }

  /** The tasks accepted from a client begin its calls; before stop, the rest are the calls still to be made. */
  lemma {:induction false} AcceptedInOrder(run: seq<State>, steps: seq<Step>, c: nat, k: nat)
    requires IsRun(run, steps) && k < |run| && c < |run[0].clients|
    ensures |run[k].clients| == |run[0].clients|
    ensures AcceptedFrom(run, steps, c, k) <= run[0].clients[c].calls
    ensures !run[k].stop ==> AcceptedFrom(run, steps, c, k) + run[k].clients[c].calls == run[0].clients[c].calls
  {
    if k != 0 {
      AcceptedInOrder(run, steps, c, k - 1);
      var s, step := run[k - 1], steps[k - 1];
      StepMakesCalls(s, step, c);
      CallsGoOn(run[0].clients[c].calls, AcceptedFrom(run, steps, c, k - 1), s, run[k], c,
                AcceptedBy(s, step, run[k], c));
    }
  }
}
