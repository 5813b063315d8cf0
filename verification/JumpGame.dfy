/**
 Jumping from the first to the last index of an array: one step left or right, or to any
 index with the same value.  A breadth-first search that forgets the indices of a value
 once it has used them still finds the least number of jumps.
 */
module JumpGame {
  import opened Listings

  /** One jump from i to j. */
  predicate Edge(arr: seq<int>, i: nat, j: nat) {
    i < |arr| && j < |arr| && i != j && (j == i + 1 || i == j + 1 || arr[i] == arr[j])
  }

  /** A sequence of jumps from index 0 to index v. */
  ghost predicate PathTo(arr: seq<int>, p: seq<nat>, v: nat) {
    && p != [] && p[0] == 0 && p[|p| - 1] == v && v < |arr|
    && forall k :: 0 <= k < |p| - 1 ==> Edge(arr, p[k], p[k + 1])
  }

  /** d is the least number of jumps with which the last index can be reached. */
  ghost predicate IsLeastJumps(arr: seq<int>, d: nat)
    requires arr != []
  {
    && (exists p :: PathTo(arr, p, |arr| - 1) && |p| - 1 == d)
    && (forall p :: PathTo(arr, p, |arr| - 1) ==> d <= |p| - 1)
  }

  // ---------- The state of a search ----------

  /** The visited indices, each with the path by which it was first reached. */
  type Trails = map<nat, seq<nat>>

  ghost function Level(trail: Trails, v: nat): int
    requires v in trail
  {
    |trail[v]| - 1
  }

  ghost predicate TrailsLead(arr: seq<int>, trail: Trails, distance: nat) {
    && 0 in trail && trail[0] == [0]
    && (forall v {:trigger PathTo(arr, trail[v], v)} :: v in trail ==> PathTo(arr, trail[v], v))
    && (forall v {:trigger trail[v]} :: v in trail ==> Level(trail, v) <= distance + 1)
  }

  /**
   The queue holds first the given number of indices of the current layer, then indices of the
   next layer; every visited index is in the queue, being expanded, or done.
   */
  ghost predicate Layered(trail: Trails, queue: seq<nat>, distance: nat, front: nat, open: set<nat>, done: set<nat>) {
    && front <= |queue| && Distinct(queue)
    && (forall k :: 0 <= k < |queue| ==> queue[k] in trail && queue[k] !in open && queue[k] !in done)
    && (forall k :: 0 <= k < |queue| ==> Level(trail, queue[k]) == if k < front then distance else distance + 1)
    && (forall v :: v in open ==> v in trail && Level(trail, v) == distance && v !in done)
    && (forall v :: v in trail ==> v in queue || v in open || v in done)
    && (forall v :: v in done ==> v in trail)
  }

  /** From a done index every jump has been followed. */
  ghost predicate Expanded(arr: seq<int>, trail: Trails, done: set<nat>) {
    forall v, w :: v in done && Edge(arr, v, w) ==> v in trail && w in trail && Level(trail, w) <= Level(trail, v) + 1
  }

  /** A list holds indices of one value only. */
  ghost predicate Lists(arr: seq<int>, list: seq<nat>, value: int) {
    forall k :: 0 <= k < |list| ==> list[k] < |arr| && arr[list[k]] == value
  }

  /** A value's list of indices is complete, except for indices that have been visited. */
  ghost predicate Listed(arr: seq<int>, positions: map<int, seq<nat>>, trail: Trails, v: nat)
    requires v < |arr|
  {
    && arr[v] in positions
    && Lists(arr, positions[arr[v]], arr[v])
    && (v in positions[arr[v]] || v in trail)
  }

  ghost predicate AllListed(arr: seq<int>, positions: map<int, seq<nat>>, trail: Trails) {
    forall v :: 0 <= v < |arr| ==> Listed(arr, positions, trail, v)
  }

  ghost predicate Searching(arr: seq<int>, positions: map<int, seq<nat>>, trail: Trails, queue: seq<nat>,
                            distance: nat, front: nat, open: set<nat>, done: set<nat>) {
    && arr != []
    && TrailsLead(arr, trail, distance)
    && Layered(trail, queue, distance, front, open, done)
    && Expanded(arr, trail, done)
    && AllListed(arr, positions, trail)
  }

  // ---------- Steps of a search ----------

  lemma ListedGrows(arr: seq<int>, positions: map<int, seq<nat>>, trail: Trails, trail': Trails)
    requires AllListed(arr, positions, trail) && forall v :: v in trail ==> v in trail'
    ensures AllListed(arr, positions, trail')
  {
    forall v | 0 <= v < |arr|
      ensures Listed(arr, positions, trail', v)
    {
      assert Listed(arr, positions, trail, v);
    }
  }

  lemma ListCleared(arr: seq<int>, positions: map<int, seq<nat>>, trail: Trails, value: int)
    requires AllListed(arr, positions, trail)
    requires forall w :: 0 <= w < |arr| && arr[w] == value ==> w in trail
    ensures AllListed(arr, positions[value := []], trail)
  {
    var positions' := positions[value := []];
    forall v | 0 <= v < |arr|
      ensures Listed(arr, positions', trail, v)
    {
      assert Listed(arr, positions, trail, v);
    }
  }

  lemma Start(arr: seq<int>, positions: map<int, seq<nat>>)
    requires arr != [] && AllListed(arr, positions, map[])
    ensures Searching(arr, positions, map[0 := [0]], [0], 0, 1, {}, {})
  {
    assert PathTo(arr, [0], 0);
    ListedGrows(arr, positions, map[], map[0 := [0]]);
  }

  /** Taking the front of the queue. */
  lemma Pop(arr: seq<int>, positions: map<int, seq<nat>>, trail: Trails, queue: seq<nat>, distance: nat, front: nat,
            done: set<nat>)
    requires Searching(arr, positions, trail, queue, distance, front, {}, done) && front > 0
    ensures Searching(arr, positions, trail, queue[1..], distance, front - 1, {queue[0]}, done)
    ensures queue[0] < |arr|
  {
    assert PathTo(arr, trail[queue[0]], queue[0]);
  }

  /** Visiting a new index w from the index v being expanded. */
  lemma Push(arr: seq<int>, positions: map<int, seq<nat>>, trail: Trails, queue: seq<nat>, distance: nat, front: nat,
             v: nat, done: set<nat>, w: nat)
    requires Searching(arr, positions, trail, queue, distance, front, {v}, done)
    requires Edge(arr, v, w) && w !in trail
    ensures Searching(arr, positions, trail[w := trail[v] + [w]], queue + [w], distance, front, {v}, done)
  {
    assert v in {v};
    assert PathTo(arr, trail[v], v);
    var trail', queue' := trail[w := trail[v] + [w]], queue + [w];
    assert TrailsLead(arr, trail', distance) by {
      assert PathTo(arr, trail[v] + [w], w);
    }
    assert Layered(trail', queue', distance, front, {v}, done) by {
      assert forall k :: 0 <= k < |queue| ==> queue'[k] == queue[k];
      assert queue'[|queue|] == w;
    }
    assert Expanded(arr, trail', done);
    ListedGrows(arr, positions, trail, trail');
  }

  /** The index v is done once everything it can jump to has been visited; its value's list may then be cleared. */
  lemma Finish(arr: seq<int>, positions: map<int, seq<nat>>, trail: Trails, queue: seq<nat>, distance: nat, front: nat,
               v: nat, done: set<nat>)
    requires Searching(arr, positions, trail, queue, distance, front, {v}, done) && v < |arr|
    requires forall w :: 0 <= w < |arr| && Edge(arr, v, w) ==> w in trail
    ensures Searching(arr, positions[arr[v] := []], trail, queue, distance, front, {}, done + {v})
  {
    assert v in {v};
    forall w | 0 <= w < |arr| && arr[w] == arr[v]
      ensures w in trail
    {
      assert w == v || Edge(arr, v, w);
    }
    ListCleared(arr, positions, trail, arr[v]);
  }

  lemma NextLayer(arr: seq<int>, positions: map<int, seq<nat>>, trail: Trails, queue: seq<nat>, distance: nat,
                  done: set<nat>)
    requires Searching(arr, positions, trail, queue, distance, 0, {}, done)
    ensures Searching(arr, positions, trail, queue, distance + 1, |queue|, {}, done)
  {
  }

  // ---------- What a search has found ----------

  /** Along a path shorter than the current layer, every index has been reached no later than by the path. */
  lemma {:induction false} ShortPathsAreDone(arr: seq<int>, positions: map<int, seq<nat>>, trail: Trails,
                                             queue: seq<nat>, distance: nat, front: nat, open: set<nat>, done: set<nat>,
                                             p: seq<nat>, v: nat, k: nat)
    requires Searching(arr, positions, trail, queue, distance, front, open, done)
    requires PathTo(arr, p, v) && k < |p| <= distance
    ensures p[k] in trail && Level(trail, p[k]) <= k && p[k] in done
  {
    if k == 0 {
      assert p[0] == 0;
    } else {
      ShortPathsAreDone(arr, positions, trail, queue, distance, front, open, done, p, v, k - 1);
      assert Edge(arr, p[k - 1], p[k - 1 + 1]);
      assert p[k - 1] in done;
    }
  }

  /** The first time the last index is expanded, its layer is the least number of jumps. */
  lemma FirstHitIsLeast(arr: seq<int>, positions: map<int, seq<nat>>, trail: Trails, queue: seq<nat>,
                        distance: nat, front: nat, done: set<nat>)
    requires arr != [] && Searching(arr, positions, trail, queue, distance, front, {|arr| - 1}, done)
    ensures IsLeastJumps(arr, distance)
  {
    var goal := |arr| - 1;
    assert goal in {goal};
    assert PathTo(arr, trail[goal], goal);
    forall p | PathTo(arr, p, goal)
      ensures distance <= |p| - 1
    {
      if |p| <= distance {
        ShortPathsAreDone(arr, positions, trail, queue, distance, front, {goal}, done, p, goal, |p| - 1);
      }
    }
  }

  /** With an empty queue, stepping right would have reached every index. */
  lemma {:induction false} DryQueueMeansAllDone(arr: seq<int>, positions: map<int, seq<nat>>, trail: Trails,
                                               distance: nat, done: set<nat>, v: nat)
    requires Searching(arr, positions, trail, [], distance, 0, {}, done) && v < |arr|
    ensures v in done
  {
    if v > 0 {
      DryQueueMeansAllDone(arr, positions, trail, distance, done, v - 1);
      assert Edge(arr, v - 1, v);
    }
  }

  function Indices(n: nat): (r: set<nat>)
    ensures |r| == n && forall v :: v in r <==> 0 <= v < n
  {
    if n == 0 then {} else Indices(n - 1) + {n - 1}
  }

  lemma DoneIsBounded(arr: seq<int>, trail: Trails, distance: nat, done: set<nat>)
    requires TrailsLead(arr, trail, distance) && forall v :: v in done ==> v in trail
    ensures |done| <= |arr|
  {
    forall v | v in done
      ensures v in Indices(|arr|)
    {
      assert PathTo(arr, trail[v], v);
    }
    SubsetSize(done, Indices(|arr|));
  }

  lemma {:induction false} SubsetSize(a: set<nat>, b: set<nat>)
    requires a <= b
    ensures |a| <= |b|
  {
    if a != {} {
      var x :| x in a;
      SubsetSize(a - {x}, b - {x});
    }
  }

  // ---------- The search ----------

  ghost predicate Marks(visited: array<bool>, trail: Trails)
    reads visited
  {
    forall v :: 0 <= v < visited.Length ==> (visited[v] <==> v in trail)
  }

  method MinJumps(arr: seq<int>) returns (r: nat)
    ensures arr == [] ==> r == 0
    ensures arr != [] ==> IsLeastJumps(arr, r)
  {
    var n := |arr|;
    if n <= 1 {
      if n == 1 {
        assert PathTo(arr, [0], 0);
      }
      return 0;
    }
    var positions := Index(arr);
    var visited := new bool[n](i => i == 0);
    var queue: seq<nat> := [0];
    var distance: nat := 0;
    ghost var trail: Trails, done: set<nat> := map[0 := [0]], {};
    Start(arr, positions);
    while queue != []
      invariant queue != [] && n - 1 !in done && visited.Length == n && Marks(visited, trail)
      invariant Searching(arr, positions, trail, queue, distance, |queue|, {}, done)
      decreases n - |done|
    {
      DoneIsBounded(arr, trail, distance, done);
      var found;
      found, positions, queue, trail, done := Layer(arr, positions, visited, queue, trail, distance, done);
      if found {
        return distance;
      }
      DoneIsBounded(arr, trail, distance, done);
      NextLayer(arr, positions, trail, queue, distance, done);
      distance := distance + 1;
      if queue == [] {
        DryQueueMeansAllDone(arr, positions, trail, distance, done, n - 1);
      }
    }
    assert false;
    return distance;
  }

  /** Expands the indices of one layer, unless the last index of the array is among them. */
  method Layer(arr: seq<int>, positions0: map<int, seq<nat>>, visited: array<bool>, queue0: seq<nat>,
               ghost trail0: Trails, ghost distance: nat, ghost done0: set<nat>)
    returns (found: bool, positions: map<int, seq<nat>>, queue: seq<nat>, ghost trail: Trails, ghost done: set<nat>)
    requires queue0 != [] && visited.Length == |arr| && Marks(visited, trail0)
    requires Searching(arr, positions0, trail0, queue0, distance, |queue0|, {}, done0)
    requires |arr| - 1 !in done0
    modifies visited
    ensures found ==> IsLeastJumps(arr, distance)
    ensures !found ==> Marks(visited, trail) && Searching(arr, positions, trail, queue, distance, 0, {}, done)
    ensures !found ==> |arr| - 1 !in done && |done| > |done0|
  {
    positions, queue, trail, done := positions0, queue0, trail0, done0;
    var size := |queue|;
    for i := 0 to size
      invariant |arr| - 1 !in done && Marks(visited, trail) && |done| == |done0| + i
      invariant Searching(arr, positions, trail, queue, distance, size - i, {}, done)
    {
      Pop(arr, positions, trail, queue, distance, size - i, done);
      var idx := queue[0];
      queue := queue[1..];
      if idx == |arr| - 1 {
        FirstHitIsLeast(arr, positions, trail, queue, distance, size - i - 1, done);
        found := true;
        return;
      }
      positions, queue, trail := Expand(arr, positions, visited, queue, idx, trail, distance, size - i - 1, done);
      done := done + {idx};
    }
    found := false;
  }

  /** The indices of each value, in order. */
  method Index(arr: seq<int>) returns (positions: map<int, seq<nat>>)
    ensures AllListed(arr, positions, map[])
  {
    positions := map[];
    for i := 0 to |arr|
      invariant forall v :: 0 <= v < |arr| && arr[v] in positions ==> Lists(arr, positions[arr[v]], arr[v])
      invariant forall v :: 0 <= v < i ==> arr[v] in positions && v in positions[arr[v]]
    {
      var list := if arr[i] in positions then positions[arr[i]] else [];
      positions := positions[arr[i] := list + [i]];
    }
    forall v | 0 <= v < |arr|
      ensures Listed(arr, positions, map[], v)
    {
    }
  }

  /** Visits everything that idx can jump to and that has not been visited before, and clears its value's list. */
  method Expand(arr: seq<int>, positions0: map<int, seq<nat>>, visited: array<bool>, queue0: seq<nat>, idx: nat,
                ghost trail0: Trails, ghost distance: nat, ghost front: nat, ghost done: set<nat>)
    returns (positions: map<int, seq<nat>>, queue: seq<nat>, ghost trail: Trails)
    requires Searching(arr, positions0, trail0, queue0, distance, front, {idx}, done)
    requires idx < |arr| == visited.Length && Marks(visited, trail0)
    modifies visited
    ensures Marks(visited, trail)
    ensures Searching(arr, positions, trail, queue, distance, front, {}, done + {idx})
  {
    queue, trail := VisitSides(arr, positions0, visited, queue0, idx, trail0, distance, front, done);
    queue, trail := VisitSame(arr, positions0, visited, queue, idx, trail, distance, front, done);
    assert forall w :: 0 <= w < |arr| && Edge(arr, idx, w) ==> w == idx - 1 || w == idx + 1 || arr[w] == arr[idx];
    Finish(arr, positions0, trail, queue, distance, front, idx, done);
    positions := positions0[arr[idx] := []];
  }

  method VisitSides(arr: seq<int>, ghost positions: map<int, seq<nat>>, visited: array<bool>, queue0: seq<nat>,
                    idx: nat, ghost trail0: Trails, ghost distance: nat, ghost front: nat, ghost done: set<nat>)
    returns (queue: seq<nat>, ghost trail: Trails)
    requires Searching(arr, positions, trail0, queue0, distance, front, {idx}, done)
    requires idx < |arr| == visited.Length && Marks(visited, trail0)
    modifies visited
    ensures Marks(visited, trail)
    ensures Searching(arr, positions, trail, queue, distance, front, {idx}, done)
    ensures idx > 0 ==> idx - 1 in trail
    ensures idx + 1 < |arr| ==> idx + 1 in trail
  {
    queue, trail := queue0, trail0;
    var left := idx - 1;
    if left >= 0 {
      queue, trail := Visit(arr, positions, visited, queue, idx, left, trail, distance, front, done);
    }
    var right := idx + 1;
    if right < |arr| {
      queue, trail := Visit(arr, positions, visited, queue, idx, right, trail, distance, front, done);
    }
  }

  /** Visits the indices that are still listed under the value at idx. */
  method VisitSame(arr: seq<int>, positions: map<int, seq<nat>>, visited: array<bool>, queue0: seq<nat>, idx: nat,
                   ghost trail0: Trails, ghost distance: nat, ghost front: nat, ghost done: set<nat>)
    returns (queue: seq<nat>, ghost trail: Trails)
    requires Searching(arr, positions, trail0, queue0, distance, front, {idx}, done)
    requires idx < |arr| == visited.Length && Marks(visited, trail0)
    modifies visited
    ensures Marks(visited, trail)
    ensures Searching(arr, positions, trail, queue, distance, front, {idx}, done)
    ensures forall w :: w in trail0 ==> w in trail
    ensures forall w :: 0 <= w < |arr| && arr[w] == arr[idx] ==> w in trail
  {
    queue, trail := queue0, trail0;
    assert Listed(arr, positions, trail, idx);
    var same := positions[arr[idx]];
    for k := 0 to |same|
      invariant Marks(visited, trail)
      invariant Searching(arr, positions, trail, queue, distance, front, {idx}, done)
      invariant forall w :: w in trail0 ==> w in trail
      invariant forall j :: 0 <= j < k ==> same[j] in trail
    {
      queue, trail := Visit(arr, positions, visited, queue, idx, same[k], trail, distance, front, done);
    }
    forall w | 0 <= w < |arr| && arr[w] == arr[idx]
      ensures w in trail
    {
      assert Listed(arr, positions, trail, w);
    }
  }

  /** Visits index w unless it has been visited. */
  method Visit(arr: seq<int>, ghost positions: map<int, seq<nat>>, visited: array<bool>, queue0: seq<nat>,
               ghost idx: nat, w: nat, ghost trail0: Trails, ghost distance: nat, ghost front: nat,
               ghost done: set<nat>)
    returns (queue: seq<nat>, ghost trail: Trails)
    requires Searching(arr, positions, trail0, queue0, distance, front, {idx}, done)
    requires w < |arr| == visited.Length && Marks(visited, trail0)
    requires w == idx || Edge(arr, idx, w)
    modifies visited
    ensures Marks(visited, trail)
    ensures Searching(arr, positions, trail, queue, distance, front, {idx}, done)
    ensures w in trail && forall v :: v in trail0 ==> v in trail
  {
    queue, trail := queue0, trail0;
    assert idx in {idx};
    if !visited[w] {
      Push(arr, positions, trail, queue, distance, front, idx, done, w);
      visited[w] := true;
      queue, trail := queue + [w], trail[w := trail[idx] + [w]];
    }
  }
}
