/** The sorted timer list: a doubly linked list of timers, earliest deadline first. */
module TimerList {
  import opened Listings
  import opened TimerSpec

  class UtilTimer {
    var prev: UtilTimer?
    var next: UtilTimer?
    var expire: int
    const user: int

    constructor (expire: int, user: int)
      ensures prev == null && next == null && this.expire == expire && this.user == user
    {
      prev, next, this.expire, this.user := null, null, expire, user;
    }
  }

  type Nodes = seq<UtilTimer>

  function At(s: Nodes, i: int): UtilTimer? {
    if 0 <= i < |s| then s[i] else null
  }

  /** The forward links follow s, except at l and k. */
  ghost predicate NextsBut(s: Nodes, l: int, k: int)
    reads s
  {
    forall i {:trigger s[i].next} :: 0 <= i < |s| && i != l && i != k ==> s[i].next == At(s, i + 1)
  }

  ghost predicate PrevsBut(s: Nodes, l: int, k: int)
    reads s
  {
    forall i {:trigger s[i].prev} :: 0 <= i < |s| && i != l && i != k ==> s[i].prev == At(s, i - 1)
  }

  /** The links of the timers follow s both ways. */
  ghost predicate Chain(s: Nodes)
    reads s
  {
    NextsBut(s, -1, -1) && PrevsBut(s, -1, -1)
  }

  /** head and tail are the ends of s; an empty list may keep an old tail. */
  ghost predicate Ends(head: UtilTimer?, tail: UtilTimer?, s: Nodes) {
    head == At(s, 0) && (s != [] ==> tail == s[|s| - 1])
  }

  lemma SplicedIn(s: Nodes, k: int, timer: UtilTimer)
    requires 0 <= k <= |s| && NextsBut(s, k - 1, -1) && PrevsBut(s, k, -1)
    requires timer.prev == At(s, k - 1) && timer.next == At(s, k)
    requires k > 0 ==> s[k - 1].next == timer
    requires k < |s| ==> s[k].prev == timer
    ensures Chain(Inserted(s, k, timer))
  {
    var r := Inserted(s, k, timer);
    forall i | 0 <= i < |r|
      ensures r[i].next == At(r, i + 1) && r[i].prev == At(r, i - 1)
    {
      if i != k {
        var j := if i < k then i else i - 1;
        assert r[i] == s[j] && s[j].next == s[j].next && s[j].prev == s[j].prev;
      }
    }
  }

  lemma CutOut(s: Nodes, k: int)
    requires 0 <= k < |s| && NextsBut(s, k - 1, k) && PrevsBut(s, k, k + 1)
    requires k > 0 ==> s[k - 1].next == At(s, k + 1)
    requires k < |s| - 1 ==> s[k + 1].prev == At(s, k - 1)
    ensures Chain(Without(s, k))
  {
    var r := Without(s, k);
    forall i | 0 <= i < |r|
      ensures r[i].next == At(r, i + 1) && r[i].prev == At(r, i - 1)
    {
      var j := if i < k then i else i + 1;
      assert r[i] == s[j] && s[j].next == s[j].next && s[j].prev == s[j].prev;
    }
  }

  ghost predicate InOrder(s: Nodes, i: int, j: int)
    requires 0 <= i < |s| && 0 <= j < |s|
    reads s`expire
  {
    s[i].expire <= s[j].expire
  }

  ghost predicate Sorted(s: Nodes)
    reads s`expire
  {
    forall i, j {:trigger InOrder(s, i, j)} :: 0 <= i < j < |s| ==> InOrder(s, i, j)
  }

  /** Sorted, but the deadline of s[k] may have been put off. */
  ghost predicate SortedButLate(s: Nodes, k: int)
    reads s`expire
  {
    forall i, j {:trigger InOrder(s, i, j)} :: 0 <= i < j < |s| && i != k ==> InOrder(s, i, j)
  }

  ghost function Deadlines(s: Nodes): map<UtilTimer, int>
    reads s`expire
  {
    map t | t in s :: t.expire
  }

  lemma SortedInserted(s: Nodes, k: int, timer: UtilTimer)
    requires 0 <= k <= |s| && Sorted(s)
    requires k > 0 ==> s[k - 1].expire <= timer.expire
    requires k < |s| ==> timer.expire <= s[k].expire
    ensures Sorted(Inserted(s, k, timer))
  {
    var r := Inserted(s, k, timer);
    forall i, j | 0 <= i < j < |r|
      ensures InOrder(r, i, j)
    {
      if i == k {
        assert j > k + 1 ==> InOrder(s, k, j - 1);
      } else if j == k {
        assert i < k - 1 ==> InOrder(s, i, k - 1);
      } else {
        assert InOrder(s, if i < k then i else i - 1, if j < k then j else j - 1);
      }
    }
  }

  ghost predicate Earlier(s: Nodes, i: int, j: int, deadlines: map<UtilTimer, int>)
    requires 0 <= i < |s| && 0 <= j < |s|
  {
    s[i] in deadlines && s[j] in deadlines && deadlines[s[i]] <= deadlines[s[j]]
  }

  /** Sorted by given deadlines, which may not be the present ones. */
  ghost predicate SortedBy(s: Nodes, deadlines: map<UtilTimer, int>) {
    forall i, j {:trigger Earlier(s, i, j, deadlines)} :: 0 <= i < j < |s| ==> Earlier(s, i, j, deadlines)
  }

  lemma SortedNow(s: Nodes)
    requires Sorted(s)
    ensures SortedBy(s, Deadlines(s))
  {
    forall i, j | 0 <= i < j < |s|
      ensures Earlier(s, i, j, Deadlines(s))
    {
      assert InOrder(s, i, j);
    }
  }

  /** Putting off one deadline of a sorted list. */
  lemma PutOffIsLate(s: Nodes, k: int, before: map<UtilTimer, int>)
    requires 0 <= k < |s| && Unshared(s) && SortedBy(s, before) && s[k] in before && before[s[k]] <= s[k].expire
    requires Deadlines(s) == before[s[k] := s[k].expire]
    ensures SortedButLate(s, k)
  {
    UnsharedAt(s, k);
    forall i, j | 0 <= i < j < |s| && i != k
      ensures InOrder(s, i, j)
    {
      assert Earlier(s, i, j, before);
      assert Deadlines(s)[s[i]] == s[i].expire && Deadlines(s)[s[j]] == s[j].expire;
    }
  }

  lemma SortedRemoved(s: Nodes, k: int)
    requires 0 <= k < |s| && SortedButLate(s, k)
    ensures Sorted(Without(s, k))
    ensures (k + 1 < |s| ==> s[k].expire <= s[k + 1].expire) ==> Sorted(s)
  {
    var r := Without(s, k);
    forall i, j | 0 <= i < j < |r|
      ensures InOrder(r, i, j)
    {
      assert InOrder(s, if i < k then i else i + 1, if j < k then j else j + 1);
    }
    if k + 1 < |s| ==> s[k].expire <= s[k + 1].expire {
      forall i, j | 0 <= i < j < |s|
        ensures InOrder(s, i, j)
      {
        assert i == k && j > k + 1 ==> InOrder(s, k + 1, j);
      }
    }
  }

  lemma DeadlinesWith(s: Nodes, t: Nodes, timer: UtilTimer)
    requires forall x :: x in t <==> x in s || x == timer
    ensures Deadlines(t) == Deadlines(s)[timer := timer.expire]
  {
  }

  lemma DeadlinesWithout(s: Nodes, t: Nodes, timer: UtilTimer)
    requires forall x :: x in t <==> x in s && x != timer
    ensures Deadlines(t) == Deadlines(s) - {timer}
  {
  }

  lemma DeadlinesMoved(s: Nodes, k: int)
    requires 0 <= k < |s| && Unshared(s)
    ensures Deadlines(Without(s, k))[s[k] := s[k].expire] == Deadlines(s)
  {
    RemovedMembers(s, k);
    DeadlinesWith(Without(s, k), s, s[k]);
  }

  /** A sorted list split at the clock reading. */
  lemma DueFirst(all: Nodes, fired: Nodes, rest: Nodes, cur: int)
    requires all == fired + rest && Unshared(all) && Sorted(all)
    requires forall x :: x in fired ==> x.expire <= cur
    requires rest != [] ==> cur < rest[0].expire
    ensures FiresDue(Deadlines(all), cur, fired) && Deadlines(rest) == Later(Deadlines(all), cur)
    ensures Sorted(rest)
  {
    forall i, j | 0 <= i < j < |rest|
      ensures InOrder(rest, i, j)
    {
      assert InOrder(all, |fired| + i, |fired| + j);
    }
    UnsharedIsDistinct(all);
    forall i, j | 0 <= i < j < |fired|
      ensures fired[i].expire <= fired[j].expire
    {
      assert InOrder(all, i, j);
    }
    assert forall i :: 0 <= i < |fired| ==> fired[i] == all[i] && fired[i] in fired;
    assert forall i :: 0 <= i < |rest| ==> rest[i] == all[|fired| + i];
    forall i | 0 <= i < |rest|
      ensures cur < rest[i].expire
    {
      assert i > 0 ==> InOrder(all, |fired|, |fired| + i);
    }
  }

  // ---------- The list ----------

  class SortedTimerList {
    var head: UtilTimer?
    var tail: UtilTimer?
    ghost var nodes: Nodes

    ghost predicate Linked()
      reads this, nodes
    {
      Unshared(nodes) && Ends(head, tail, nodes) && Chain(nodes)
    }

    ghost predicate Valid()
      reads this, nodes
    {
      Linked() && Sorted(nodes)
    }

    ghost function Pending(): map<UtilTimer, int>
      reads this, nodes
    {
      Deadlines(nodes)
    }

    constructor ()
      ensures Valid() && Pending() == map[]
    {
      head, tail, nodes := null, null, [];
    }

    method AddTimer(timer: UtilTimer?)
      requires Valid() && (timer != null ==> timer !in nodes && timer.prev == null && timer.next == null)
      modifies this, nodes`prev, nodes`next, (if timer == null then {} else {timer})`prev,
               (if timer == null then {} else {timer})`next
      ensures Valid()
      ensures Pending() == if timer == null then old(Pending()) else old(Pending())[timer := timer.expire]
    {
      if timer == null {
        return;
      }
      if head == null {
        DeadlinesWith([], [timer], timer);
        head, tail, nodes := timer, timer, [timer];
        return;
      }
      if timer.expire < head.expire {
        SortedInserted(nodes, 0, timer);
        ghost var before := nodes;
        PushFront(timer);
        DeadlinesWith(before, nodes, timer);
        return;
      }
      AddAfter(timer, head, 0);
    }

    method PushFront(timer: UtilTimer)
      requires Linked() && timer !in nodes && timer.prev == null && head != null
      modifies `head, `nodes, nodes`prev, timer`next
      ensures Linked() && nodes == Inserted(old(nodes), 0, timer)
      ensures forall x :: x in nodes <==> x in old(nodes) || x == timer
    {
      InsertedMembers(nodes, 0, timer);
      UnsharedAt(nodes, 0);
      timer.next := head;
      head.prev := timer;
      head := timer;
      SplicedIn(nodes, 0, timer);
      nodes := Inserted(nodes, 0, timer);
    }

    /** Links the timer in behind the from node, past the earlier timers there. */
    method AddAfter(timer: UtilTimer, from: UtilTimer, ghost at: nat)
      requires Valid() && timer !in nodes && at < |nodes| && from == nodes[at] && from.expire <= timer.expire
      modifies `tail, `nodes, nodes`prev, nodes`next, timer`prev, timer`next
      ensures Valid() && Pending() == old(Pending())[timer := timer.expire]
    {
      var prev, tmp := from, from.next;
      ghost var k: nat := at + 1;
      while tmp != null && timer.expire > tmp.expire
        invariant 0 < k <= |nodes| && prev == nodes[k - 1] && tmp == At(nodes, k)
        invariant prev.expire <= timer.expire
        decreases |nodes| - k
      {
        prev := tmp;
        tmp := tmp.next;
        k := k + 1;
      }
      SortedInserted(nodes, k, timer);
      ghost var before := nodes;
      LinkIn(timer, prev, tmp, k);
      DeadlinesWith(before, nodes, timer);
    }

    method LinkIn(timer: UtilTimer, prev: UtilTimer, tmp: UtilTimer?, ghost k: nat)
      requires Linked() && timer !in nodes && 0 < k <= |nodes| && prev == nodes[k - 1] && tmp == At(nodes, k)
      modifies `tail, `nodes, nodes`prev, nodes`next, timer`prev, timer`next
      ensures Linked() && nodes == Inserted(old(nodes), k, timer)
      ensures forall x :: x in nodes <==> x in old(nodes) || x == timer
    {
      InsertedMembers(nodes, k, timer);
      UnsharedAt(nodes, k - 1);
      if k < |nodes| {
        UnsharedAt(nodes, k);
      }
      prev.next := timer;
      timer.prev := prev;
      if tmp != null {
        timer.next := tmp;
        tmp.prev := timer;
      } else {
        timer.next := null;
        tail := timer;
      }
      SplicedIn(nodes, k, timer);
      nodes := Inserted(nodes, k, timer);
    }

    /** Moves a timer whose deadline was put off towards the tail. */
    method AdjustTimer(timer: UtilTimer?)
      requires Linked() && if timer == null then Sorted(nodes)
               else exists k :: 0 <= k < |nodes| && nodes[k] == timer && SortedButLate(nodes, k)
      modifies this, nodes`prev, nodes`next
      ensures Valid() && Pending() == old(Pending())
    {
      if timer == null {
        return;
      }
      ghost var k :| 0 <= k < |nodes| && nodes[k] == timer && SortedButLate(nodes, k);
      SortedRemoved(nodes, k);
      var tmp := timer.next;
      if tmp == null || timer.expire < tmp.expire {
        return;
      }
      MoveOn(timer, k);
    }

    /** What a user does when a connection has been active: a later deadline, and the timer moved on. */
    method PutOff(timer: UtilTimer, deadline: int)
      requires Valid() && timer in nodes && timer.expire <= deadline
      modifies this, nodes`prev, nodes`next, timer`expire
      ensures Valid() && Pending() == old(Pending())[timer := deadline]
    {
      ghost var k :| 0 <= k < |nodes| && nodes[k] == timer;
      ghost var before := Pending();
      SortedNow(nodes);
      timer.expire := deadline;
      assert Linked() && Deadlines(nodes) == before[timer := deadline];
      PutOffIsLate(nodes, k, before);
      AdjustTimer(timer);
    }

    method MoveOn(timer: UtilTimer, ghost k: nat)
      requires Linked() && k + 1 < |nodes| && nodes[k] == timer
      requires nodes[k + 1].expire <= timer.expire && Sorted(Without(nodes, k))
      modifies this, nodes`prev, nodes`next
      ensures Valid() && Pending() == old(Pending())
    {
      DeadlinesMoved(nodes, k);
      var from := Detach(timer, k);
      AddAfter(timer, from, k);
    }

    /** Takes a timer with a successor out of the list; from is that successor. */
    method Detach(timer: UtilTimer, ghost k: nat) returns (from: UtilTimer)
      requires Linked() && k + 1 < |nodes| && nodes[k] == timer
      modifies `head, `nodes, nodes`prev, nodes`next
      ensures Linked() && nodes == Without(old(nodes), k) && timer !in nodes && from == nodes[k]
    {
      RemovedMembers(nodes, k);
      UnsharedAt(nodes, k);
      UnsharedAt(nodes, k + 1);
      if timer == head {
        head := head.next;
        head.prev := null;
        timer.next := null;
        from := head;
      } else {
        UnsharedAt(nodes, k - 1);
        UnsharedAt(nodes, 0);
        timer.prev.next := timer.next;
        timer.next.prev := timer.prev;
        from := timer.next;
      }
      CutOut(nodes, k);
      nodes := Without(nodes, k);
    }

    method DelTimer(timer: UtilTimer?)
      requires Valid() && (timer != null ==> timer in nodes)
      modifies this, nodes`prev, nodes`next
      ensures Valid() && Pending() == if timer == null then old(Pending()) else old(Pending()) - {timer}
    {
      if timer == null {
        return;
      }
      ghost var k :| 0 <= k < |nodes| && nodes[k] == timer;
      SortedRemoved(nodes, k);
      RemovedMembers(nodes, k);
      DeadlinesWithout(nodes, Without(nodes, k), timer);
      Unlink(timer, k);
    }

    method Unlink(timer: UtilTimer, ghost k: nat)
      requires Linked() && k < |nodes| && nodes[k] == timer && Unshared(Without(nodes, k))
      modifies this, nodes`prev, nodes`next
      ensures Linked() && nodes == Without(old(nodes), k)
    {
      UnsharedAt(nodes, k);
      UnsharedAt(nodes, 0);
      UnsharedAt(nodes, |nodes| - 1);
      if timer == head && timer == tail {
        head := null;
        tail := null;
      } else if timer == head {
        UnsharedAt(nodes, 1);
        head := head.next;
        head.prev := null;
      } else if timer == tail {
        UnsharedAt(nodes, k - 1);
        tail := tail.prev;
        tail.next := null;
      } else {
        UnsharedAt(nodes, k - 1);
        UnsharedAt(nodes, k + 1);
        timer.prev.next := timer.next;
        timer.next.prev := timer.prev;
      }
      CutOut(nodes, k);
      nodes := Without(nodes, k);
    }

    method DropHead()
      requires Linked() && nodes != []
      modifies `head, `nodes, nodes`prev
      ensures Linked() && nodes == old(nodes)[1..]
    {
      RemovedMembers(nodes, 0);
      UnsharedAt(nodes, 0);
      if |nodes| > 1 {
        UnsharedAt(nodes, 1);
      }
      head := head.next;
      if head != null {
        head.prev := null;
      }
      CutOut(nodes, 0);
      assert Without(nodes, 0) == nodes[1..];
      nodes := nodes[1..];
    }

    /** Calls and removes the due timers from the head; fired lists the calls. */
    method Tick(cur: int) returns (fired: Nodes)
      requires Valid()
      modifies `head, `nodes, nodes`prev
      ensures Valid()
      ensures FiresDue(old(Pending()), cur, fired)
      ensures Pending() == Later(old(Pending()), cur)
    {
      fired := [];
      if head == null {
        DueFirst(nodes, [], nodes, cur);
        return;
      }
      ghost var all := nodes;
      var tmp := head;
      while tmp != null && tmp.expire <= cur
        invariant Linked() && tmp == head && |fired| + |nodes| == |all|
        invariant fired == all[..|fired|] && nodes == all[|fired|..]
        invariant forall x :: x in fired ==> x.expire <= cur
        decreases |nodes|
      {
        fired := fired + [tmp];
        DropHead();
        tmp := head;
      }
      DueFirst(all, fired, nodes, cur);
    }
  }
}
