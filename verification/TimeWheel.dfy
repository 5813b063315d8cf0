/** The time wheel: slots of doubly linked timers, each with a number of turns still to wait. */
module TimeWheel {
  import opened Listings

  /** The slots of the wheel and the seconds between two of them. */
  const N := 60
  const SI := 1

  class TwTimer {
    var prev: TwTimer?
    var next: TwTimer?
    var rotation: int
    const timeSlot: int

    constructor (rot: int, ts: int)
      ensures prev == null && next == null && rotation == rot && timeSlot == ts
    {
      prev, next, rotation, timeSlot := null, null, rot, ts;
    }
  }

  type Nodes = seq<TwTimer>

  // ---------- The list of one slot ----------

  function At(s: Nodes, i: int): TwTimer? {
    if 0 <= i < |s| then s[i] else null
  }

  /** The forward links follow s, except at l and k. */
  ghost predicate NextsBut(s: Nodes, l: int, k: int)
    reads s`next
  {
    forall i {:trigger s[i].next} :: 0 <= i < |s| && i != l && i != k ==> s[i].next == At(s, i + 1)
  }

  ghost predicate PrevsBut(s: Nodes, l: int, k: int)
    reads s`prev
  {
    forall i {:trigger s[i].prev} :: 0 <= i < |s| && i != l && i != k ==> s[i].prev == At(s, i - 1)
  }

  ghost predicate Placed(s: Nodes, i: int)
    reads s`rotation
  {
    forall t :: t in s ==> t.timeSlot == i && t.rotation >= 0
  }

  /** s is the doubly linked list of slot i. */
  ghost predicate Slot(head: TwTimer?, s: Nodes, i: int)
    reads s
  {
    && Unshared(s)
    && head == At(s, 0)
    && NextsBut(s, -1, -1)
    && PrevsBut(s, -1, -1)
    && Placed(s, i)
  }

  lemma PushedFront(s: Nodes, timer: TwTimer, i: int)
    requires Unshared(s) && NextsBut(s, -1, -1) && PrevsBut(s, 0, -1) && timer !in s
    requires Placed(s, i) && timer.timeSlot == i && timer.rotation >= 0
    requires timer.prev == null && timer.next == At(s, 0) && (s != [] ==> s[0].prev == timer)
    ensures Slot(timer, [timer] + s, i)
  {
    var r := [timer] + s;
    assert r == Inserted(s, 0, timer);
    InsertedMembers(s, 0, timer);
    forall i | 0 <= i < |r|
      ensures r[i].next == At(r, i + 1) && r[i].prev == At(r, i - 1)
    {
      if i > 0 {
        assert r[i] == s[i - 1] && s[i - 1].next == s[i - 1].next && s[i - 1].prev == s[i - 1].prev;
      }
    }
  }

  lemma CutOut(s: Nodes, k: int, i: int)
    requires 0 <= k < |s| && NextsBut(s, k - 1, k) && PrevsBut(s, k, k + 1) && Unshared(s)
    requires Placed(s, i)
    requires k > 0 ==> s[k - 1].next == At(s, k + 1)
    requires k < |s| - 1 ==> s[k + 1].prev == At(s, k - 1)
    ensures Slot(At(Without(s, k), 0), Without(s, k), i)
  {
    var r := Without(s, k);
    RemovedMembers(s, k);
    forall i | 0 <= i < |r|
      ensures r[i].next == At(r, i + 1) && r[i].prev == At(r, i - 1)
    {
      var j := if i < k then i else i + 1;
      assert r[i] == s[j] && s[j].next == s[j].next && s[j].prev == s[j].prev;
    }
  }

  // ---------- Countdowns ----------

  /** Ticks until the timer's own tick, as the wheel stands at cur. */
  function Remaining(rotation: int, timeSlot: int, cur: int): int {
    rotation * N + (timeSlot - cur) % N
  }

  /** The timeout in ticks, rounded down but never to zero. */
  function Ticks(timeout: int): int
    requires timeout >= 0
  {
    if timeout < SI then 1 else timeout / SI
  }

  lemma PlacedAhead(ticks: int, cur: int)
    requires ticks >= 0 && 0 <= cur < N
    ensures Remaining(ticks / N, (cur + ticks % N) % N, cur) == ticks
  {
  }

  /** Moving the wheel by one slot takes one from every countdown; the slot it leaves paid a turn for it. */
  lemma Turned(cur: int)
    requires 0 <= cur < N
    ensures forall rotation, ts {:trigger Remaining(rotation, ts, (cur + 1) % N)} :: 0 <= ts < N ==>
      Remaining(rotation, ts, (cur + 1) % N) == Remaining(if ts == cur then rotation + 1 else rotation, ts, cur) - 1
    ensures forall rotation, ts {:trigger Remaining(rotation, ts, cur)} :: 0 <= ts < N && rotation >= 0 ==>
      (Remaining(rotation, ts, cur) == 0 <==> ts == cur && rotation == 0)
  {
  }

  /** A tick calls the timers whose countdown is over. */
  ghost predicate CallsDue<T>(pending: map<T, int>, fired: seq<T>) {
    && Distinct(fired)
    && (forall t :: t in fired ==> t in pending && pending[t] == 0)
    && (forall t :: t in pending && pending[t] == 0 ==> t in fired)
  }

  /** The countdowns a tick leaves. */
  ghost function Passed<T>(pending: map<T, int>): map<T, int> {
    map t | t in pending && pending[t] != 0 :: pending[t] - 1
  }

  /** What happens to the wheel; a tick comes with the calls it made. */
  datatype Op<T> = Add(timer: T, timeout: nat) | Del(timer: T) | Tick(calls: seq<T>)

  ghost function After<T>(pending: map<T, int>, op: Op<T>): map<T, int> {
    match op
    case Add(t, timeout) => pending[t := Ticks(timeout)]
    case Del(t) => pending - {t}
    case Tick(_) => Passed(pending)
  }

  /** Every tick of the run has made the calls that were due. */
  ghost predicate IsRun<T>(pending: map<T, int>, ops: seq<Op<T>>)
    decreases |ops|
  {
    ops == [] || ((ops[0].Tick? ==> CallsDue(pending, ops[0].calls)) && IsRun(After(pending, ops[0]), ops[1..]))
  }

  function TickCount<T>(ops: seq<Op<T>>): nat {
    if ops == [] then 0 else (if ops[0].Tick? then 1 else 0) + TickCount(ops[1..])
  }

  /** How many of the ticks call timer t. */
  ghost function Firings<T>(ops: seq<Op<T>>, t: T): nat {
    if ops == [] then 0 else (if ops[0].Tick? && t in ops[0].calls then 1 else 0) + Firings(ops[1..], t)
  }

  ghost predicate Untouched<T>(ops: seq<Op<T>>, t: T) {
    forall op :: op in ops ==> op.Tick? || op.timer != t
  }

  /** Whatever else happens, a timer that is left alone is called once, by the tick after its countdown. */
  lemma {:induction false} FiresOnce<T>(pending: map<T, int>, ops: seq<Op<T>>, t: T)
    requires IsRun(pending, ops) && Untouched(ops, t) && (t in pending ==> pending[t] >= 0)
    ensures Firings(ops, t) == if t in pending && TickCount(ops) > pending[t] then 1 else 0
    decreases |ops|
  {
    if ops != [] {
      assert ops[0] in ops;
      FiresOnce(After(pending, ops[0]), ops[1..], t);
    }
  }

  /** In ticks, a timeout counts as at least one. */
  lemma TicksAreTimeout(timeout: int)
    requires timeout >= 0
    ensures Ticks(timeout) == if timeout < 1 then 1 else timeout
  {
  }

  /**
   A timer that is added and then left alone is called once, in tick call number timeout + 1, or 2 for a
   timeout of 0.
   */
  lemma AddedFiresOnce<T>(pending: map<T, int>, t: T, timeout: nat, ops: seq<Op<T>>)
    requires IsRun(pending, [Add(t, timeout)] + ops) && Untouched(ops, t)
    ensures Firings([Add(t, timeout)] + ops, t)
         == if TickCount(ops) > (if timeout < 1 then 1 else timeout) then 1 else 0
  {
    var all := [Add(t, timeout)] + ops;
    assert all[1..] == ops;
    TicksAreTimeout(timeout);
    FiresOnce(After(pending, all[0]), ops, t);
  }

  /** Slot i holds live timers of its own. */
  ghost predicate SlotAt(slots: array<TwTimer?>, lists: seq<Nodes>, live: set<TwTimer>, i: int)
    requires 0 <= i < slots.Length == |lists|
    reads slots, live
  {
    (forall t :: t in lists[i] ==> t in live) && Slot(slots[i], lists[i], i)
  }

  /** The slots hold exactly the live timers. */
  ghost predicate Formed(slots: array<TwTimer?>, lists: seq<Nodes>, live: set<TwTimer>)
    reads slots, live
  {
    && slots.Length == N == |lists|
    && (forall t {:trigger t in live} :: t in live ==> 0 <= t.timeSlot < N && t.rotation >= 0 && t in lists[t.timeSlot])
    && (forall i {:trigger SlotAt(slots, lists, live, i)} :: 0 <= i < N ==> SlotAt(slots, lists, live, i))
  }

  /** pending is the countdown of every live timer. */
  ghost predicate Counted(pending: map<TwTimer, int>, live: set<TwTimer>, cur: int)
    reads live`rotation
  {
    pending.Keys == live && forall t :: t in live ==> pending[t] == Remaining(t.rotation, t.timeSlot, cur)
  }

  lemma CountedWith(pending: map<TwTimer, int>, live: set<TwTimer>, cur: int, timer: TwTimer, ticks: int)
    requires Counted(pending, live, cur) && Remaining(timer.rotation, timer.timeSlot, cur) == ticks
    ensures Counted(pending[timer := ticks], live + {timer}, cur)
  {
  }

  /** When the current slot has been run, the countdowns a tick later are right for the next slot. */
  lemma CountedNext(pending: map<TwTimer, int>, turns: map<TwTimer, int>, live: set<TwTimer>, cur: int, fired: Nodes)
    requires 0 <= cur < N && pending.Keys == turns.Keys && Distinct(fired)
    requires forall t :: t in turns ==> 0 <= t.timeSlot < N && turns[t] >= 0
    requires forall t :: t in turns ==> pending[t] == Remaining(turns[t], t.timeSlot, cur)
    requires forall t :: t in fired ==> t in turns && t.timeSlot == cur && turns[t] == 0
    requires forall t :: t in turns && t.timeSlot == cur && turns[t] == 0 ==> t in fired
    requires forall t :: t in live <==> t in turns && t !in fired
    requires forall t :: t in live ==> t.rotation == turns[t] - if t.timeSlot == cur then 1 else 0
    ensures CallsDue(pending, fired) && Counted(Passed(pending), live, (cur + 1) % N)
  {
    Turned(cur);
  }

  // ---------- The wheel ----------

  class TimeWheel {
    const slots: array<TwTimer?>
    var curSlot: int
    ghost var lists: seq<Nodes>
    ghost var live: set<TwTimer>
    /** The abstract value: for every live timer, the ticks before the one that fires it. */
    ghost var pending: map<TwTimer, int>

    ghost predicate Valid()
      reads this, slots, live
    {
      0 <= curSlot < N && Formed(slots, lists, live) && Counted(pending, live, curSlot)
    }

    constructor ()
      ensures Valid() && fresh(slots) && slots.Length == 60 && pending == map[]
    {
      slots := new TwTimer?[N](i => null);
      curSlot, lists, live, pending := 0, seq(N, i => []), {}, map[];
    }

    /** Changes to the list of slot ts leave the others alone. */
    twostate lemma OthersKept(ts: int)
      requires old(Formed(slots, lists, live)) && lists == old(lists) && live == old(live) && 0 <= ts < N
      requires forall i :: 0 <= i < N && i != ts ==> slots[i] == old(slots[i])
      requires forall t :: t in live && t !in lists[ts] ==> unchanged(t)
      ensures forall i {:trigger SlotAt(slots, lists, live, i)} :: 0 <= i < N && i != ts ==>
        SlotAt(slots, lists, live, i)
    {
      forall i | 0 <= i < N && i != ts
        ensures SlotAt(slots, lists, live, i)
      {
        var s := lists[i];
        assert old(SlotAt(slots, lists, live, i));
        assert old(SlotAt(slots, lists, live, ts));
        assert forall t :: t in s ==> t !in lists[ts];
        forall j | 0 <= j < |s|
          ensures s[j].next == At(s, j + 1) && s[j].prev == At(s, j - 1)
        {
          assert s[j] in s && unchanged(s[j]);
        }
      }
    }

    method AddTimer(timeout: int) returns (timer: TwTimer?)
      requires Valid()
      modifies slots, `lists, `live, `pending, live`prev
      ensures Valid()
      ensures timer == null <==> timeout < 0
      ensures timer == null ==> pending == old(pending)
      ensures timer != null ==> fresh(timer) && pending == old(pending)[timer := if timeout < 1 then 1 else timeout]
    {
      if timeout < 0 {
        return null;
      }
      var ticks := 0;
      if timeout < SI {
        ticks := 1;
      } else {
        ticks := timeout / SI;
      }
      var rotation := ticks / N;
      var ts := (curSlot + ticks % N) % N;
      PlacedAhead(ticks, curSlot);
      timer := new TwTimer(rotation, ts);
      ghost var before := live;
      Enlist(timer);
      CountedWith(pending, before, curSlot, timer, ticks);
      pending := pending[timer := ticks];
    }

    method Enlist(timer: TwTimer)
      requires Formed(slots, lists, live) && timer !in live && 0 <= timer.timeSlot < N && timer.rotation >= 0
      requires timer.prev == null == timer.next
      modifies slots, `lists, `live, live`prev, timer`next
      ensures Formed(slots, lists, live) && live == old(live) + {timer}
    {
      var ts := timer.timeSlot;
      ghost var s := lists[ts];
      assert SlotAt(slots, lists, live, ts);
      LinkFront(ts, timer, s);
      OthersKept(ts);
      ghost var was, before := lists, live;
      lists := lists[ts := [timer] + s];
      live := live + {timer};
      assert forall i {:trigger SlotAt(slots, lists, live, i)} :: 0 <= i < N && i != ts ==>
        SlotAt(slots, was, before, i);
    }

    method LinkFront(ts: int, timer: TwTimer, ghost s: Nodes)
      requires 0 <= ts < slots.Length && Slot(slots[ts], s, ts) && timer !in s
      requires timer.prev == null == timer.next && timer.timeSlot == ts && timer.rotation >= 0
      modifies slots, s`prev, timer`next
      ensures Slot(slots[ts], [timer] + s, ts)
      ensures forall i :: 0 <= i < slots.Length && i != ts ==> slots[i] == old(slots[i])
    {
      if s != [] {
        UnsharedAt(s, 0);
      }
      if slots[ts] == null {
        slots[ts] := timer;
      } else {
        timer.next := slots[ts];
        slots[ts].prev := timer;
        slots[ts] := timer;
      }
      PushedFront(s, timer, ts);
    }

    method DelTimer(timer: TwTimer?)
      requires Valid() && (timer != null ==> timer in live)
      modifies slots, `lists, `live, `pending, live`prev, live`next
      ensures Valid()
      ensures pending == if timer == null then old(pending) else old(pending) - {timer}
    {
      if timer == null {
        return;
      }
      ghost var s := lists[timer.timeSlot];
      ghost var k :| 0 <= k < |s| && s[k] == timer;
      var after := Unlink(timer, k);
      pending := pending - {timer};
    }

    /** Takes the timer out of its slot's list; after is the timer that followed it. */
    method Unlink(timer: TwTimer, ghost k: nat) returns (after: TwTimer?)
      requires Formed(slots, lists, live) && 0 <= timer.timeSlot < N && k < |lists[timer.timeSlot]|
        && lists[timer.timeSlot][k] == timer
      modifies slots, `lists, `live, live`prev, live`next
      ensures Formed(slots, lists, live) && live == old(live) - {timer}
      ensures lists == old(lists)[timer.timeSlot := Without(old(lists[timer.timeSlot]), k)]
      ensures after == At(lists[timer.timeSlot], k)
    {
      var ts := timer.timeSlot;
      ghost var s := lists[ts];
      assert SlotAt(slots, lists, live, ts);
      RemovedMembers(s, k);
      after := Relink(ts, timer, s, k);
      OthersKept(ts);
      ghost var was, before := lists, live;
      lists := lists[ts := Without(s, k)];
      live := live - {timer};
      assert forall i {:trigger SlotAt(slots, lists, live, i)} :: 0 <= i < N && i != ts ==>
        SlotAt(slots, was, before, i);
    }

    method Relink(ts: int, timer: TwTimer, ghost s: Nodes, ghost k: nat) returns (after: TwTimer?)
      requires 0 <= ts < slots.Length && Slot(slots[ts], s, ts) && k < |s| && s[k] == timer
      modifies slots, s`prev, s`next
      ensures Slot(slots[ts], Without(s, k), ts) && after == At(Without(s, k), k)
      ensures forall i :: 0 <= i < slots.Length && i != ts ==> slots[i] == old(slots[i])
    {
      UnsharedAt(s, 0);
      UnsharedAt(s, k);
      after := timer.next;
      if timer == slots[ts] {
        slots[ts] := slots[ts].next;
        if slots[ts] != null {
          UnsharedAt(s, 1);
          slots[ts].prev := null;
        }
      } else {
        UnsharedAt(s, k - 1);
        timer.prev.next := timer.next;
        if timer.next != null {
          UnsharedAt(s, k + 1);
          timer.next.prev := timer.prev;
        }
      }
      CutOut(s, k, ts);
    }

    /** One turn less to wait. */
    method TurnDown(timer: TwTimer)
      requires Formed(slots, lists, live) && timer in live && timer.rotation > 0
      modifies timer`rotation
      ensures Formed(slots, lists, live) && timer.rotation == old(timer.rotation) - 1
    {
      timer.rotation := timer.rotation - 1;
      forall i | 0 <= i < N
        ensures SlotAt(slots, lists, live, i)
      {
        var s := lists[i];
        assert old(SlotAt(slots, lists, live, i));
        assert forall j {:trigger s[j].next} {:trigger s[j].prev} :: 0 <= j < |s| ==>
          s[j].next == old(s[j].next) && s[j].prev == old(s[j].prev);
      }
    }

    /** The timers of slot ts lose a turn, or are called and removed when no turn is left; fired lists the calls. */
    method RunSlot(ts: int) returns (fired: Nodes)
      requires Formed(slots, lists, live) && 0 <= ts < N
      modifies slots, `lists, `live, live
      ensures Formed(slots, lists, live) && Distinct(fired)
      ensures forall t :: t in fired <==> t in old(live) && t.timeSlot == ts && old(t.rotation) == 0
      ensures forall t :: t in live <==> t in old(live) && t !in fired
      ensures forall t :: t in live ==> t.rotation == old(t.rotation) - if t.timeSlot == ts then 1 else 0
    {
      fired := [];
      ghost var k: nat, kept: set<TwTimer> := 0, {};
      assert SlotAt(slots, lists, live, ts);
      var tmp := slots[ts];
      while tmp != null
        invariant Formed(slots, lists, live) && k <= |lists[ts]| && tmp == At(lists[ts], k)
        invariant forall i :: 0 <= i < k ==> lists[ts][i] in kept
        invariant forall i :: k <= i < |lists[ts]| ==> lists[ts][i] !in kept
        invariant forall t :: t in kept ==> t in live && t.timeSlot == ts
        invariant forall t :: t in live <==> t in old(live) && t !in fired
        invariant forall t :: t in live ==> t.rotation == old(t.rotation) - if t in kept then 1 else 0
        invariant Distinct(fired) && forall t :: t in fired ==>
          t in old(live) && t.timeSlot == ts && old(t.rotation) == 0
        decreases |lists[ts]| - k
      {
        assert SlotAt(slots, lists, live, ts);
        UnsharedAt(lists[ts], k);
        if tmp.rotation > 0 {
          TurnDown(tmp);
          kept := kept + {tmp};
          tmp := tmp.next;
          k := k + 1;
        } else {
          fired := fired + [tmp];
          tmp := Unlink(tmp, k);
        }
      }
    }

    /** Runs the current slot and moves to the next one. */
    method Tick() returns (fired: Nodes)
      requires Valid()
      modifies this, slots, live
      ensures Valid()
      ensures CallsDue(old(pending), fired)
      ensures pending == Passed(old(pending))
    {
      ghost var turns := map t | t in live :: t.rotation;
      fired := RunSlot(curSlot);
      CountedNext(pending, turns, live, curSlot, fired);
      MoveTo((curSlot + 1) % N, Passed(pending));
    }

    method MoveTo(slot: int, ghost left: map<TwTimer, int>)
      requires 0 <= slot < N && Formed(slots, lists, live) && Counted(left, live, slot)
      modifies `curSlot, `pending
      ensures Valid() && curSlot == slot && pending == left
    {
      curSlot, pending := slot, left;
    }
  }
}
