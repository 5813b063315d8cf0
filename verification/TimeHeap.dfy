/** The time heap: timers in a binary min-heap that grows by doubling, with lazy deletion. */
module TimeHeap {
  import opened Wrappers
  import opened Listings
  import opened TimerSpec

  /** A timer; deleting it only clears its callback. */
  class HeapTimer {
    const expire: int
    const user: int
    var armed: bool

    constructor (now: int, delay: int, user: int)
      ensures expire == now + delay && this.user == user && armed
    {
      expire, this.user, armed := now + delay, user, true;
    }
  }

  type Items = seq<HeapTimer>

  predicate IsChild(p: int, c: int) {
    c == 2 * p + 1 || c == 2 * p + 2
  }

  // ---------- Heap order on sequences ----------

  /** Every child of the nodes from lo on is no earlier than its parent. */
  ghost predicate Ordered(s: Items, lo: nat) {
    forall p, c {:trigger IsChild(p, c)} :: lo <= p < c < |s| && IsChild(p, c) ==> s[p].expire <= s[c].expire
  }

  /** The same, except under the hole. */
  ghost predicate OrderedBelow(s: Items, lo: nat, hole: int) {
    forall p, c {:trigger IsChild(p, c)} :: lo <= p < c < |s| && IsChild(p, c) && p != hole ==>
      s[p].expire <= s[c].expire
  }

  /** The same, except above the hole. */
  ghost predicate OrderedAbove(s: Items, hole: int) {
    forall p, c {:trigger IsChild(p, c)} :: 0 <= p < c < |s| && IsChild(p, c) && c != hole ==>
      s[p].expire <= s[c].expire
  }

  /** The children of the hole are no earlier than its parent. */
  ghost predicate Bridged(s: Items, lo: nat, hole: int) {
    forall p, c {:trigger IsChild(p, hole), IsChild(hole, c)} ::
      lo <= p < hole < c < |s| && IsChild(p, hole) && IsChild(hole, c) ==> s[p].expire <= s[c].expire
  }

  function Swap(s: Items, i: int, j: int): Items
    requires 0 <= i < |s| && 0 <= j < |s|
  {
    s[i := s[j]][j := s[i]]
  }

  ghost predicate Rearranged(s: Items, t: Items) {
    |s| == |t| && multiset(s) == multiset(t)
  }

  lemma SwapRearranges(s: Items, i: int, j: int, t: Items)
    requires 0 <= i < |s| && 0 <= j < |s| && Rearranged(s, t)
    ensures Rearranged(Swap(s, i, j), t)
  {
  }

  lemma RearrangedMembers(s: Items, t: Items)
    requires Rearranged(s, t)
    ensures forall x :: x in s <==> x in t
  {
    assert forall x :: x in s <==> x in multiset(s);
    assert forall x :: x in t <==> x in multiset(t);
  }

  lemma {:induction false} DistinctCounts(s: Items, x: HeapTimer)
    requires Distinct(s)
    ensures multiset(s)[x] <= 1
  {
    if s != [] {
      assert s == s[..|s| - 1] + [s[|s| - 1]];
      DistinctCounts(s[..|s| - 1], x);
    }
  }

  lemma RearrangedDistinct(s: Items, t: Items)
    requires Rearranged(s, t) && Distinct(t)
    ensures Distinct(s)
  {
    forall i, j | 0 <= i < j < |s|
      ensures s[i] != s[j]
    {
      assert s == s[..j] + s[j..] && s[i] in s[..j] && s[j] in s[j..];
      DistinctCounts(t, s[i]);
    }
  }

  /** The earlier child of the hole moves up. */
  lemma SiftDown(s: Items, lo: nat, hole: int, child: int)
    requires lo <= hole < child < |s| && IsChild(hole, child)
    requires OrderedBelow(s, lo, hole) && Bridged(s, lo, hole)
    requires forall c {:trigger IsChild(hole, c)} :: hole < c < |s| && IsChild(hole, c) ==>
      s[child].expire <= s[c].expire
    requires s[child].expire < s[hole].expire
    ensures OrderedBelow(Swap(s, hole, child), lo, child) && Bridged(Swap(s, hole, child), lo, child)
  {
  }

  /** A later parent moves down into the hole. */
  lemma SiftUp(s: Items, hole: int, parent: int)
    requires 0 <= parent < hole < |s| && IsChild(parent, hole)
    requires OrderedAbove(s, hole) && Bridged(s, 0, hole)
    requires s[hole].expire < s[parent].expire
    ensures OrderedAbove(Swap(s, hole, parent), parent) && Bridged(Swap(s, hole, parent), 0, parent)
  {
  }

  lemma {:induction false} RootIsEarliest(s: Items, i: int)
    requires Ordered(s, 0) && 0 <= i < |s|
    ensures s[0].expire <= s[i].expire
  {
    if i > 0 {
      assert IsChild((i - 1) / 2, i);
      RootIsEarliest(s, (i - 1) / 2);
    }
  }

  /** The first n cells of the array, seen as a sequence of timers. */
  ghost predicate Holds(a: array<HeapTimer?>, n: int, s: Items)
    reads a
  {
    |s| == n <= a.Length && forall i :: 0 <= i < n ==> a[i] == s[i]
  }

  ghost predicate HoldsBut(a: array<HeapTimer?>, n: int, s: Items, hole: int)
    reads a
  {
    |s| == n <= a.Length && forall i :: 0 <= i < n && i != hole ==> a[i] == s[i]
  }

  /** The timers among s that are still to fire, with their deadlines. */
  ghost function Armed(s: Items): map<HeapTimer, int>
    reads s
  {
    map t | t in s && t.armed :: t.expire
  }

  /** The last timer takes the place of the root. */
  ghost function Headless(s: Items): Items
    requires s != []
  {
    if |s| == 1 then [] else s[..|s| - 1][0 := s[|s| - 1]]
  }

  lemma HeadlessContents(s: Items)
    requires s != [] && Distinct(s)
    ensures Distinct(Headless(s)) && forall x :: x in Headless(s) <==> x in s && x != s[0]
  {
    var r := Headless(s);
    forall x | x in s && x != s[0]
      ensures x in r
    {
      var k :| 0 <= k < |s| && s[k] == x;
      assert r[if k == |s| - 1 then 0 else k] == x;
    }
  }

  /** A tick in progress: all were in the heap, items still are, and fired have been called. */
  ghost predicate Ticking(all: Items, items: Items, now: int, fired: Items)
    reads all
  {
    && Distinct(fired)
    && (forall x :: x in items ==> x in all && x !in fired)
    && (forall x :: x in fired ==> x in all && x.armed && x.expire <= now)
    && (forall x :: x in all && x !in items ==> x.expire <= now && (x.armed ==> x in fired))
    && (forall i, j :: 0 <= i < j < |fired| ==> fired[i].expire <= fired[j].expire)
    && (forall x, y :: x in fired && y in items ==> x.expire <= y.expire)
  }

  lemma TickingOn(all: Items, items: Items, now: int, fired: Items, rest: Items)
    requires Ticking(all, items, now, fired) && Ordered(items, 0)
    requires items != [] && items[0].expire <= now
    requires forall x :: x in rest <==> x in items && x != items[0]
    ensures Ticking(all, rest, now, if items[0].armed then fired + [items[0]] else fired)
  {
    forall y | y in items
      ensures items[0].expire <= y.expire
    {
      var k :| 0 <= k < |items| && items[k] == y;
      RootIsEarliest(items, k);
    }
  }

  lemma TickingDone(all: Items, items: Items, now: int, fired: Items)
    requires Ticking(all, items, now, fired) && Ordered(items, 0) && (items != [] ==> now < items[0].expire)
    ensures FiresDue(Armed(all), now, fired) && Armed(items) == Later(Armed(all), now)
  {
    forall y | y in items
      ensures now < y.expire
    {
      var k :| 0 <= k < |items| && items[k] == y;
      RootIsEarliest(items, k);
    }
  }

  ghost function With(pending: map<HeapTimer, int>, timer: HeapTimer): map<HeapTimer, int>
    reads timer
  {
    if timer.armed then pending[timer := timer.expire] else pending
  }

  lemma Entered(s: Items, before: Items, timer: HeapTimer)
    requires Rearranged(s, before + [timer]) && Distinct(before) && timer !in before
    ensures Distinct(s) && Armed(s) == With(Armed(before), timer)
  {
    RearrangedMembers(s, before + [timer]);
    RearrangedDistinct(s, before + [timer]);
  }

  // ---------- The heap ----------

  class TimeHeap {
    var cells: array<HeapTimer?>
    var capacity: nat
    var curSize: nat
    ghost var items: Items

    ghost predicate Stored()
      reads this, cells
    {
      capacity == cells.Length && Holds(cells, curSize, items)
    }

    ghost predicate Valid()
      reads this, cells
    {
      Stored() && Ordered(items, 0) && Distinct(items)
    }

    /** The abstract value: the timers still to fire. */
    ghost function Pending(): map<HeapTimer, int>
      reads this, items
    {
      Armed(items)
    }

    constructor (cap: nat)
      ensures Valid() && fresh(cells) && capacity == cap && Pending() == map[]
    {
      cells := new HeapTimer?[cap](i => null);
      capacity, curSize, items := cap, 0, [];
    }

    /** Takes over size timers in any order; refuses a capacity that is too small. */
    static method FromArray(initArray: array<HeapTimer>, size: nat, cap: nat) returns (r: Option<TimeHeap>)
      requires size <= initArray.Length && Distinct(initArray[..size])
      ensures r.None? <==> cap < size
      ensures r.Some? ==> fresh(r.value) && r.value.Valid() && r.value.capacity == cap
      ensures r.Some? ==> r.value.Pending() == Armed(initArray[..size])
    {
      if cap < size {
        return None;
      }
      var heap := new TimeHeap.Build(initArray, size, cap);
      return Some(heap);
    }

    /** Copies the timers and orders the heap bottom up. */
    constructor Build(initArray: array<HeapTimer>, size: nat, cap: nat)
      requires size <= cap && size <= initArray.Length && Distinct(initArray[..size])
      ensures Valid() && fresh(cells) && capacity == cap && Pending() == Armed(initArray[..size])
    {
      cells := new HeapTimer?[cap](i => null);
      capacity, curSize, items := cap, size, initArray[..size];
      new;
      if size != 0 {
        for i := 0 to size
          invariant fresh(cells) && cells.Length == capacity == cap && curSize == size && items == initArray[..size]
          invariant forall k :: 0 <= k < i ==> cells[k] == initArray[k]
        {
          cells[i] := initArray[i];
        }
        Heapify();
        RearrangedMembers(items, initArray[..size]);
      }
    }

    /** Percolates down every inner node, from the last one to the root. */
    method Heapify()
      requires Stored() && curSize > 0 && Distinct(items)
      modifies cells, `items
      ensures Valid() && Rearranged(items, old(items))
    {
      ghost var given := items;
      var i := (curSize - 1) / 2;
      while i >= 0
        invariant -1 <= i < curSize && Stored()
        invariant Rearranged(items, given) && Ordered(items, i + 1)
      {
        PercolateDown(i);
        i := i - 1;
      }
      RearrangedDistinct(items, given);
    }

    /** The earlier of the hole's children. */
    method EarlierChild(hole: nat, ghost s: Items) returns (child: nat)
      requires hole * 2 + 1 <= curSize - 1 && HoldsBut(cells, curSize, s, hole)
      ensures hole < child < curSize && IsChild(hole, child)
      ensures forall c {:trigger IsChild(hole, c)} :: IsChild(hole, c) && c < curSize ==> s[child].expire <= s[c].expire
    {
      child := hole * 2 + 1;
      if child < curSize - 1 && cells[child + 1].expire < cells[child].expire {
        child := child + 1;
      }
    }

    /** Puts the subtree of the hole in order. */
    method PercolateDown(hole: nat)
      requires Stored() && capacity > 0 && (hole < curSize || hole == curSize == 0) && Ordered(items, hole + 1)
      modifies cells, `items
      ensures Stored() && Rearranged(items, old(items)) && Ordered(items, hole)
    {
      items := Sink(hole, items);
    }

    /** The hole's timer goes down until no child is earlier. */
    method Sink(hole0: nat, ghost all: Items) returns (ghost s: Items)
      requires Holds(cells, curSize, all) && cells.Length > 0 && (hole0 < curSize || hole0 == curSize == 0)
      requires Ordered(all, hole0 + 1)
      modifies cells
      ensures Holds(cells, curSize, s) && Rearranged(s, all) && Ordered(s, hole0)
    {
      var hole, temp := hole0, cells[hole0];
      s := all;
      while hole * 2 + 1 <= curSize - 1
        invariant hole0 <= hole && (hole < curSize || hole == curSize == 0)
        invariant HoldsBut(cells, curSize, s, hole) && (curSize > 0 ==> s[hole] == temp)
        invariant Rearranged(s, all) && OrderedBelow(s, hole0, hole) && Bridged(s, hole0, hole)
        decreases curSize - hole
      {
        var child := EarlierChild(hole, s);
        if cells[child].expire < temp.expire {
          SwapRearranges(s, hole, child, all);
          SiftDown(s, hole0, hole, child);
          cells[hole] := cells[child];
          s := Swap(s, hole, child);
        } else {
          break;
        }
        hole := child;
      }
      cells[hole] := temp;
    }

    method Resize()
      requires Stored()
      modifies `cells, `capacity
      ensures Stored() && fresh(cells) && capacity == 2 * old(capacity)
    {
      var temp := new HeapTimer?[2 * capacity](i => null);
      capacity := capacity * 2;
      for i := 0 to curSize
        invariant curSize <= temp.Length == capacity && Holds(cells, curSize, items)
        invariant fresh(temp) && cells == old(cells) && Holds(temp, i, items[..i])
      {
        temp[i] := cells[i];
      }
      cells := temp;
    }

    /** A capacity of zero would stay zero when doubled. */
    method AddTimer(timer: HeapTimer?)
      requires Valid() && (timer != null ==> timer !in items && capacity > 0)
      modifies this, cells
      ensures Valid() && (cells == old(cells) || fresh(cells)) && capacity >= old(capacity)
      ensures Pending() == if timer == null then old(Pending()) else With(old(Pending()), timer)
    {
      if timer == null {
        return;
      }
      if curSize >= capacity {
        Resize();
      }
      ghost var before, all := items, items + [timer];
      curSize := curSize + 1;
      items := Rise(timer, all);
      Entered(items, before, timer);
    }

    /** The new timer enters at the end and goes up past later parents. */
    method Rise(timer: HeapTimer, ghost all: Items) returns (ghost s: Items)
      requires 0 < curSize == |all| && HoldsBut(cells, curSize, all, curSize - 1) && all[curSize - 1] == timer
      requires OrderedAbove(all, curSize - 1)
      modifies cells
      ensures Holds(cells, curSize, s) && Rearranged(s, all) && Ordered(s, 0)
    {
      var hole := curSize - 1;
      s := all;
      while hole > 0
        invariant 0 <= hole < curSize && HoldsBut(cells, curSize, s, hole) && s[hole] == timer
        invariant Rearranged(s, all) && OrderedAbove(s, hole) && Bridged(s, 0, hole)
      {
        var parent := (hole - 1) / 2;
        assert IsChild(parent, hole);
        if cells[parent].expire <= timer.expire {
          break;
        }
        SwapRearranges(s, hole, parent, all);
        SiftUp(s, hole, parent);
        cells[hole] := cells[parent];
        s := Swap(s, hole, parent);
        hole := parent;
      }
      cells[hole] := timer;
    }

    /** Lazy deletion: the timer stays in its cell and will not be called. */
    method DelTimer(timer: HeapTimer?)
      requires Valid()
      modifies timer
      ensures Valid()
      ensures Pending() == if timer == null then old(Pending()) else old(Pending()) - {timer}
    {
      if timer == null {
        return;
      }
      timer.armed := false;
    }

    method Top() returns (timer: HeapTimer?)
      requires Valid()
      ensures (timer == null) == (items == [])
      ensures timer != null ==> timer in items && forall t :: t in items ==> timer.expire <= t.expire
    {
      if curSize == 0 {
        return null;
      }
      forall t | t in items
        ensures items[0].expire <= t.expire
      {
        var k :| 0 <= k < |items| && items[k] == t;
        RootIsEarliest(items, k);
      }
      return cells[0];
    }

    method PopTimer()
      requires Valid()
      modifies cells, `curSize, `items
      ensures Valid() && curSize == if old(curSize) == 0 then 0 else old(curSize) - 1
      ensures old(items) == [] ==> items == []
      ensures old(items) != [] ==> forall x :: x in items <==> x in old(items) && x != old(items)[0]
    {
      if curSize == 0 {
        return;
      }
      HeadlessContents(items);
      curSize := curSize - 1;
      cells[0] := cells[curSize];
      items := Headless(items);
      PercolateDown(0);
      RearrangedMembers(items, Headless(old(items)));
      RearrangedDistinct(items, Headless(old(items)));
    }

    /** Calls and removes, from the top, every timer that is due; fired lists the calls. */
    method Tick(now: int) returns (fired: Items)
      requires Valid() && capacity > 0
      modifies cells, `curSize, `items
      ensures Valid()
      ensures FiresDue(old(Pending()), now, fired)
      ensures Pending() == Later(old(Pending()), now)
    {
      fired := [];
      var tmp := cells[0];
      while curSize != 0 && tmp != null && tmp.expire <= now
        invariant Valid() && (curSize != 0 ==> tmp == items[0])
        invariant Ticking(old(items), items, now, fired)
        decreases curSize
      {
        ghost var before, called := items, fired;
        if cells[0].armed {
          fired := fired + [cells[0]];
        }
        PopTimer();
        TickingOn(old(items), before, now, called, items);
        tmp := cells[0];
      }
      TickingDone(old(items), items, now, fired);
    }
  }
}
