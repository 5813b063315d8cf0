/**
 Scripts of adds, deletes and ticks, run on the sorted list and on the heap.  What each of them
 calls is fixed by the script alone, up to the order of equal deadlines.
 */
module TimerScripts {
  import opened Listings
  import opened TimerSpec
  import opened TimerList
  import opened TimeHeap

  /** A timer is named by its place among those added so far. */
  datatype Command = Add(now: int, delay: int) | Del(i: nat) | Tick(now: int)

  ghost function Left(alive: map<nat, int>, added: nat, c: Command): map<nat, int> {
    match c
    case Add(now, delay) => alive[added := now + delay]
    case Del(i) => alive - {i}
    case Tick(now) => Later(alive, now)
  }

  function Added(added: nat, c: Command): nat {
    if c.Add? then added + 1 else added
  }

  /** Only timers that are still to be called are deleted. */
  ghost predicate Sensible(alive: map<nat, int>, added: nat, script: seq<Command>)
    decreases |script|
  {
    script == [] || (
      && (script[0].Del? ==> script[0].i in alive)
      && Sensible(Left(alive, added, script[0]), Added(added, script[0]), script[1..]))
  }

  /** deadlines are those of the timers due by now, one after the other. */
  ghost predicate Shows(alive: map<nat, int>, now: int, deadlines: seq<int>) {
    exists order :: FiresDue(alive, now, order) && deadlines == DeadlinesOf(alive, order)
  }

  /** log has an entry for every tick of the script: the deadlines of the timers it called. */
  ghost predicate Logs(alive: map<nat, int>, added: nat, script: seq<Command>, log: seq<seq<int>>)
    decreases |script|
  {
    if script == [] then
      log == []
    else
      var alive', added' := Left(alive, added, script[0]), Added(added, script[0]);
      if script[0].Tick? then
        log != [] && Shows(alive, script[0].now, log[0]) && Logs(alive', added', script[1..], log[1..])
      else
        Logs(alive', added', script[1..], log)
  }

  lemma LogsTick(alive: map<nat, int>, added: nat, script: seq<Command>, deadlines: seq<int>, rest: seq<seq<int>>)
    requires script != [] && script[0].Tick? && Shows(alive, script[0].now, deadlines)
    requires Logs(Later(alive, script[0].now), added, script[1..], rest)
    ensures Logs(alive, added, script, [deadlines] + rest)
  {
    assert ([deadlines] + rest)[1..] == rest;
  }

  lemma ShowsOne(alive: map<nat, int>, now: int, a: seq<int>, b: seq<int>)
    requires Shows(alive, now, a) && Shows(alive, now, b)
    ensures a == b
  {
    var s :| FiresDue(alive, now, s) && a == DeadlinesOf(alive, s);
    var t :| FiresDue(alive, now, t) && b == DeadlinesOf(alive, t);
    SameDeadlines(s, t, alive);
  }

  /** A script has one log. */
  lemma {:induction false} LogsOne(alive: map<nat, int>, added: nat, script: seq<Command>, a: seq<seq<int>>,
                                   b: seq<seq<int>>)
    requires Logs(alive, added, script, a) && Logs(alive, added, script, b)
    ensures a == b
    decreases |script|
  {
    if script != [] {
      var alive', added' := Left(alive, added, script[0]), Added(added, script[0]);
      if script[0].Tick? {
        ShowsOne(alive, script[0].now, a[0], b[0]);
        LogsOne(alive', added', script[1..], a[1..], b[1..]);
      } else {
        LogsOne(alive', added', script[1..], a, b);
      }
    }
  }

  // ---------- The timers of a container and their names ----------

  /** The timers of p are those still to be called; ts lists all that were added, in the order of their names. */
  ghost predicate Named<T>(p: map<T, int>, names: Pairing<T, nat>, ts: seq<T>, alive: map<nat, int>) {
    && Paired(p, alive, names)
    && forall i :: i in alive ==> i < |ts| && names.back[i] == ts[i]
  }

  lemma AddNamed<T>(p: map<T, int>, names: Pairing<T, nat>, ts: seq<T>, alive: map<nat, int>, t: T, deadline: int)
    requires Named(p, names, ts, alive) && t !in p
    ensures Named(p[t := deadline], WithPair(names, t, |ts|), ts + [t], alive[|ts| := deadline])
  {
    AddKeepsPaired(p, alive, names, t, |ts|, deadline);
  }

  lemma DelNamed<T>(p: map<T, int>, names: Pairing<T, nat>, ts: seq<T>, alive: map<nat, int>, i: nat)
    requires Named(p, names, ts, alive) && i in alive
    ensures i < |ts| && ts[i] in p && Named(p - {ts[i]}, names, ts, alive - {i})
  {
    DelKeepsPaired(p, alive, names, ts[i]);
  }

  lemma TickNamed<T>(p: map<T, int>, names: Pairing<T, nat>, ts: seq<T>, alive: map<nat, int>, now: int, called: seq<T>)
    requires Named(p, names, ts, alive) && FiresDue(p, now, called)
    ensures Shows(alive, now, DeadlinesOf(p, called))
    ensures Named(Later(p, now), names, ts, Later(alive, now))
  {
    forall i | 0 <= i < |called|
      ensures called[i] in p && p[called[i]] <= now
    {
      assert called[i] in called;
    }
    var order := seq(|called|, i requires 0 <= i < |called| => names.to[called[i]]);
    forall i, j | 0 <= i < j < |order|
      ensures order[i] != order[j]
    {
      assert names.back[order[i]] == called[i] && names.back[order[j]] == called[j];
    }
    forall k | k in alive && alive[k] <= now
      ensures k in order
    {
      var i :| 0 <= i < |called| && called[i] == names.back[k];
      assert order[i] == k;
    }
    assert DeadlinesOf(alive, order) == DeadlinesOf(p, called);
  }

  // ---------- The list ----------

  /** The nodes are among those given, and more. */
  ghost predicate Among(nodes: seq<UtilTimer>, given: seq<UtilTimer>, more: set<UtilTimer>) {
    forall i :: 0 <= i < |nodes| ==> nodes[i] in given || nodes[i] in more
  }

  lemma PendingNodes(list: SortedTimerList)
    ensures forall t :: t in list.Pending() ==> t in list.nodes
    ensures forall i :: 0 <= i < |list.nodes| ==> list.nodes[i] in list.Pending()
  {
  }

  method AddToList(list: SortedTimerList, ghost names: Pairing<UtilTimer, nat>, ts: seq<UtilTimer>,
                   ghost alive: map<nat, int>, deadline: int)
    returns (t: UtilTimer, ghost names': Pairing<UtilTimer, nat>)
    requires list.Valid() && Named(list.Pending(), names, ts, alive)
    modifies list, list.nodes
    ensures list.Valid() && fresh(t) && Among(list.nodes, old(list.nodes), {t})
    ensures Named(list.Pending(), names', ts + [t], alive[|ts| := deadline])
  {
    ghost var p := list.Pending();
    t := new UtilTimer(deadline, 0);
    PendingNodes(list);
    names' := WithPair(names, t, |ts|);
    AddNamed(p, names, ts, alive, t, deadline);
    list.AddTimer(t);
    PendingNodes(list);
  }

  method DelFromList(list: SortedTimerList, ghost names: Pairing<UtilTimer, nat>, ts: seq<UtilTimer>,
                     ghost alive: map<nat, int>, i: nat)
    requires list.Valid() && Named(list.Pending(), names, ts, alive) && i in alive
    modifies list, list.nodes
    ensures list.Valid() && Among(list.nodes, old(list.nodes), {})
    ensures Named(list.Pending(), names, ts, alive - {i})
  {
    DelNamed(list.Pending(), names, ts, alive, i);
    PendingNodes(list);
    list.DelTimer(ts[i]);
    PendingNodes(list);
  }

  method TickList(list: SortedTimerList, ghost names: Pairing<UtilTimer, nat>, ghost ts: seq<UtilTimer>,
                  ghost alive: map<nat, int>, now: int) returns (deadlines: seq<int>)
    requires list.Valid() && Named(list.Pending(), names, ts, alive)
    modifies list, list.nodes
    ensures list.Valid() && Among(list.nodes, old(list.nodes), {})
    ensures Named(list.Pending(), names, ts, Later(alive, now)) && Shows(alive, now, deadlines)
  {
    ghost var p := list.Pending();
    PendingNodes(list);
    var fired := list.Tick(now);
    PendingNodes(list);
    TickNamed(p, names, ts, alive, now, fired);
    deadlines := seq(|fired|, k requires 0 <= k < |fired| reads fired => fired[k].expire);
    assert deadlines == DeadlinesOf(p, fired);
  }

  method RunListFrom(list: SortedTimerList, ghost names: Pairing<UtilTimer, nat>, ts: seq<UtilTimer>,
                     ghost alive: map<nat, int>, script: seq<Command>) returns (log: seq<seq<int>>)
    requires list.Valid() && Named(list.Pending(), names, ts, alive) && Sensible(alive, |ts|, script)
    modifies list, list.nodes
    ensures Logs(alive, |ts|, script, log)
    decreases |script|
  {
    if script == [] {
      return [];
    }
    match script[0] {
      case Add(now, delay) => {
        var t;
        ghost var names';
        t, names' := AddToList(list, names, ts, alive, now + delay);
        log := RunListFrom(list, names', ts + [t], alive[|ts| := now + delay], script[1..]);
      }
      case Del(i) => {
        DelFromList(list, names, ts, alive, i);
        log := RunListFrom(list, names, ts, alive - {i}, script[1..]);
      }
      case Tick(now) => {
        var deadlines := TickList(list, names, ts, alive, now);
        var rest := RunListFrom(list, names, ts, Later(alive, now), script[1..]);
        LogsTick(alive, |ts|, script, deadlines, rest);
        log := [deadlines] + rest;
      }
    }
  }

  /** A script run on a new list. */
  method RunList(script: seq<Command>) returns (log: seq<seq<int>>)
    requires Sensible(map[], 0, script)
    ensures Logs(map[], 0, script, log)
  {
    var list := new SortedTimerList();
    PendingNodes(list);
    log := RunListFrom(list, Pairing(map[], map[]), [], map[], script);
  }

  // ---------- The heap ----------

  method AddToHeap(heap: TimeHeap, ghost names: Pairing<HeapTimer, nat>, ts: seq<HeapTimer>,
                   ghost alive: map<nat, int>, now: int, delay: int)
    returns (t: HeapTimer, ghost names': Pairing<HeapTimer, nat>)
    requires heap.Valid() && heap.capacity > 0 && Named(heap.Pending(), names, ts, alive)
    modifies heap, heap.cells
    ensures heap.Valid() && heap.capacity > 0 && fresh(t) && (heap.cells == old(heap.cells) || fresh(heap.cells))
    ensures Named(heap.Pending(), names', ts + [t], alive[|ts| := now + delay])
  {
    ghost var p := heap.Pending();
    t := new HeapTimer(now, delay, 0);
    names' := WithPair(names, t, |ts|);
    AddNamed(p, names, ts, alive, t, now + delay);
    heap.AddTimer(t);
    assert heap.Pending() == p[t := now + delay];
  }

  method DelFromHeap(heap: TimeHeap, ghost names: Pairing<HeapTimer, nat>, ts: seq<HeapTimer>,
                     ghost alive: map<nat, int>, i: nat)
    requires heap.Valid() && Named(heap.Pending(), names, ts, alive) && i in alive
    modifies ts
    ensures heap.Valid() && Named(heap.Pending(), names, ts, alive - {i})
  {
    DelNamed(heap.Pending(), names, ts, alive, i);
    heap.DelTimer(ts[i]);
  }

  method TickHeap(heap: TimeHeap, ghost names: Pairing<HeapTimer, nat>, ghost ts: seq<HeapTimer>,
                  ghost alive: map<nat, int>, now: int) returns (deadlines: seq<int>)
    requires heap.Valid() && heap.capacity > 0 && Named(heap.Pending(), names, ts, alive)
    modifies heap, heap.cells
    ensures heap.Valid() && heap.capacity > 0 && heap.cells == old(heap.cells)
    ensures Named(heap.Pending(), names, ts, Later(alive, now)) && Shows(alive, now, deadlines)
  {
    ghost var p := heap.Pending();
    var fired := heap.Tick(now);
    TickNamed(p, names, ts, alive, now, fired);
    deadlines := seq(|fired|, k requires 0 <= k < |fired| => fired[k].expire);
    assert deadlines == DeadlinesOf(p, fired);
  }

  method RunHeapFrom(heap: TimeHeap, ghost names: Pairing<HeapTimer, nat>, ts: seq<HeapTimer>,
                     ghost alive: map<nat, int>, script: seq<Command>) returns (log: seq<seq<int>>)
    requires heap.Valid() && heap.capacity > 0 && Named(heap.Pending(), names, ts, alive)
    requires Sensible(alive, |ts|, script)
    modifies heap, heap.cells, ts
    ensures Logs(alive, |ts|, script, log)
    decreases |script|
  {
    if script == [] {
      return [];
    }
    match script[0] {
      case Add(now, delay) => {
        var t;
        ghost var names';
        t, names' := AddToHeap(heap, names, ts, alive, now, delay);
        log := RunHeapFrom(heap, names', ts + [t], alive[|ts| := now + delay], script[1..]);
      }
      case Del(i) => {
        DelFromHeap(heap, names, ts, alive, i);
        log := RunHeapFrom(heap, names, ts, alive - {i}, script[1..]);
      }
      case Tick(now) => {
        var deadlines := TickHeap(heap, names, ts, alive, now);
        var rest := RunHeapFrom(heap, names, ts, Later(alive, now), script[1..]);
        LogsTick(alive, |ts|, script, deadlines, rest);
        log := [deadlines] + rest;
      }
    }
  }

  /** A script run on a new heap. */
  method RunHeap(script: seq<Command>, cap: nat) returns (log: seq<seq<int>>)
    requires cap > 0 && Sensible(map[], 0, script)
    ensures Logs(map[], 0, script, log)
  {
    var heap := new TimeHeap(cap);
    log := RunHeapFrom(heap, Pairing(map[], map[]), [], map[], script);
  }

  // ---------- Side by side ----------

  /**
   Whatever a script adds, deletes and asks, the list and the heap call timers with the same deadlines in
   the same order.
   */
  method RunBoth(script: seq<Command>, cap: nat) returns (a: seq<seq<int>>, b: seq<seq<int>>)
    requires cap > 0 && Sensible(map[], 0, script)
    ensures Logs(map[], 0, script, a) && a == b
  {
    a := RunList(script);
    b := RunHeap(script, cap);
    LogsOne(map[], 0, script, a, b);
  }
}
