/** The two apple eaters: one with a heap and a batched tail, one that goes day by day over a map. */
module AppleEating {
  import opened Wrappers
  import opened Sums
  import opened PriorityQueue
  import opened AppleSchedule

  /** A lot in the heap: the day it rots, and how many apples are left of it. */
  type Entry = (int, int)

  /** The day each lot rots. */
  function Deadlines(days: seq<int>): (r: seq<int>)
    ensures |r| == |days|
  {
    seq(|days|, i requires 0 <= i < |days| => i + days[i])
  }

  /** The heap version eats from a lot on the lot's own day even if it is rotten by then. */
  function HeapDeadlines(days: seq<int>): (r: seq<int>)
    ensures |r| == |days|
  {
    seq(|days|, i requires 0 <= i < |days| => i + (if days[i] <= 0 then 1 else days[i]))
  }

  /** A day with a negative number of apples is a day without apples. */
  function Supply(apples: seq<int>): (r: seq<nat>)
    ensures |r| == |apples|
  {
    seq(|apples|, i requires 0 <= i < |apples| => if apples[i] > 0 then apples[i] else 0)
  }

  // ---------- The question, in terms of the input ----------

  /**
   Apples that ripen on day lot are eaten from that day on, while they are good or, unless only sound
   ones may be eaten, on that very day; and no more of them than there are.
   */
  ghost predicate IsDiet(apples: seq<int>, days: seq<int>, onlySound: bool, s: Schedule)
    requires |apples| == |days|
  {
    && (forall k :: 0 <= k < |s| && s[k].Some? ==>
          var lot := s[k].value;
          lot < |days| && lot <= k && (k < lot + days[lot] || (!onlySound && k == lot)))
    && (forall lot :: 0 <= lot < |apples| ==> |MealsOf(s, lot)| <= if apples[lot] > 0 then apples[lot] else 0)
  }

  ghost predicate IsMost(apples: seq<int>, days: seq<int>, onlySound: bool, most: int)
    requires |apples| == |days|
  {
    && (exists s :: IsDiet(apples, days, onlySound, s) && |Meals(s)| == most)
    && (forall s :: IsDiet(apples, days, onlySound, s) ==> |Meals(s)| <= most)
  }

  lemma FeasibleIsDiet(apples: seq<int>, days: seq<int>, onlySound: bool, s: Schedule)
    requires |apples| == |days|
    ensures IsDiet(apples, days, onlySound, s)
       <==> Feasible(if onlySound then Deadlines(days) else HeapDeadlines(days), Supply(apples), 0, s)
  {
    forall lot: nat
      ensures Uses(s, lot) == |MealsOf(s, lot)|
    {
      UsesIsMeals(s, lot);
    }
  }

  /** The largest number of meals of any feasible schedule is the answer to the question. */
  lemma MaximumIsMost(apples: seq<int>, days: seq<int>, onlySound: bool, most: int)
    requires |apples| == |days|
    requires IsMaximum(if onlySound then Deadlines(days) else HeapDeadlines(days), Supply(apples), most)
    ensures IsMost(apples, days, onlySound, most)
  {
    forall s: Schedule
      ensures Eaten(s) == |Meals(s)|
      ensures IsDiet(apples, days, onlySound, s)
         <==> Feasible(if onlySound then Deadlines(days) else HeapDeadlines(days), Supply(apples), 0, s)
    {
      EatenIsMeals(s);
      FeasibleIsDiet(apples, days, onlySound, s);
    }
  }

  predicate RotsLater(a: Entry, b: Entry) {
    b.0 < a.0 || (b.0 == a.0 && b.1 < a.1)
  }

  // ---------- The heap's entries and the lots they stand for ----------

  function IsEntry(e: Entry): Option<Entry> -> nat {
    (x: Option<Entry>) => if x == Some(e) then 1 else 0
  }

  ghost function Copies(slots: seq<Option<Entry>>, e: Entry): nat {
    Sum(slots, IsEntry(e))
  }

  /** slots tells for each lot the entry it has in the heap, if any; the heap is exactly those. */
  ghost predicate Mirrors(heap: multiset<Entry>, slots: seq<Option<Entry>>) {
    forall e {:trigger Copies(slots, e)} :: heap[e] == Copies(slots, e)
  }

  lemma MirrorsStart(n: nat)
    ensures Mirrors(multiset{}, seq(n, _ => None))
  {
    var slots: seq<Option<Entry>> := seq(n, _ => None);
    forall e: Entry
      ensures Copies(slots, e) == 0
    {
      SumZero(slots, IsEntry(e));
    }
  }

  lemma MirrorsPush(heap: multiset<Entry>, slots: seq<Option<Entry>>, lot: nat, x: Entry)
    requires Mirrors(heap, slots) && lot < |slots| && slots[lot] == None
    ensures Mirrors(heap + multiset{x}, slots[lot := Some(x)])
  {
    forall e
      ensures (heap + multiset{x})[e] == Copies(slots[lot := Some(x)], e)
    {
      SumUpdate(slots, lot, Some(x), IsEntry(e));
      assert heap[e] == Copies(slots, e);
    }
  }

  lemma MirrorsPop(heap: multiset<Entry>, slots: seq<Option<Entry>>, lot: nat, x: Entry)
    requires Mirrors(heap, slots) && lot < |slots| && slots[lot] == Some(x)
    ensures x in heap && Mirrors(heap - multiset{x}, slots[lot := None])
  {
    SumAtLeast(slots, lot, IsEntry(x));
    assert heap[x] == Copies(slots, x);
    forall e
      ensures (heap - multiset{x})[e] == Copies(slots[lot := None], e)
    {
      SumUpdate(slots, lot, None, IsEntry(e));
      assert heap[e] == Copies(slots, e);
    }
  }

  lemma MirrorsFind(heap: multiset<Entry>, slots: seq<Option<Entry>>, x: Entry) returns (lot: nat)
    requires Mirrors(heap, slots) && x in heap
    ensures lot < |slots| && slots[lot] == Some(x)
  {
    assert heap[x] == Copies(slots, x);
    if forall i :: 0 <= i < |slots| ==> slots[i] != Some(x) {
      SumZero(slots, IsEntry(x));
    }
    lot :| lot < |slots| && slots[lot] == Some(x);
  }

  lemma MirrorsHas(heap: multiset<Entry>, slots: seq<Option<Entry>>, lot: nat)
    requires Mirrors(heap, slots) && lot < |slots| && slots[lot].Some?
    ensures slots[lot].value in heap
  {
    MirrorsPop(heap, slots, lot, slots[lot].value);
  }

  /** The lots in the heap have arrived, and a lot that has arrived and is still good is in the heap. */
  ghost predicate Stocked(days: seq<int>, left: seq<nat>, slots: seq<Option<Entry>>, arrived: nat, day: int) {
    && |days| == |left| == |slots|
    && (forall lot :: 0 <= lot < |slots| && slots[lot].Some? ==>
          lot < arrived && left[lot] > 0 && slots[lot].value == (lot + days[lot], left[lot]))
    && (forall lot :: 0 <= lot < |slots| && lot < arrived && left[lot] > 0 && HeapDeadlines(days)[lot] > day ==>
          slots[lot].Some?)
  }

  /** Lots that have not arrived yet are untouched. */
  ghost predicate Untouched(supply: seq<nat>, left: seq<nat>, arrived: nat) {
    |left| == |supply| && forall lot :: arrived <= lot < |left| ==> left[lot] == supply[lot]
  }

  /** The heap's view of the tree on the given day, with the given number of lots arrived, agrees with a greedy plan. */
  ghost predicate InStep(days: seq<int>, supply: seq<nat>, arrived: nat, day: nat, heap: multiset<Entry>,
                         left: seq<nat>, slots: seq<Option<Entry>>, plan: Schedule) {
    && Mirrors(heap, slots)
    && Stocked(days, left, slots, arrived, day)
    && Untouched(supply, left, arrived)
    && Greedy(HeapDeadlines(days), supply, day, left, plan)
  }

  predicate AllFresh(heap: multiset<Entry>, day: int) {
    forall x :: x in heap ==> x.0 > day
  }

  lemma PopRotten(days: seq<int>, supply: seq<nat>, arrived: nat, day: nat, heap: multiset<Entry>,
                  left: seq<nat>, slots: seq<Option<Entry>>, plan: Schedule, top: Entry)
    returns (slots': seq<Option<Entry>>)
    requires InStep(days, supply, arrived, day, heap, left, slots, plan) && arrived <= day
    requires top in heap && top.0 <= day
    ensures InStep(days, supply, arrived, day, heap - multiset{top}, left, slots', plan)
  {
    var lot := MirrorsFind(heap, slots, top);
    MirrorsPop(heap, slots, lot, top);
    slots' := slots[lot := None];
  }

  /** Popping the entries that have rotted. */
  method Clean(day: nat, heap0: multiset<Entry>, ghost days: seq<int>, ghost supply: seq<nat>, ghost arrived: nat,
               ghost left: seq<nat>, ghost slots0: seq<Option<Entry>>, ghost plan: Schedule)
    returns (heap: multiset<Entry>, ghost slots: seq<Option<Entry>>)
    requires InStep(days, supply, arrived, day, heap0, left, slots0, plan) && arrived <= day
    ensures InStep(days, supply, arrived, day, heap, left, slots, plan)
    ensures AllFresh(heap, day) && |heap| <= |heap0|
  {
    heap, slots := heap0, slots0;
    var rotsLater := (a, b) => RotsLater(a, b);
    while heap != multiset{}
      invariant InStep(days, supply, arrived, day, heap, left, slots, plan) && |heap| <= |heap0|
      decreases |heap|
    {
      var top := Top(heap, rotsLater);
      if top.0 > day {
        return;
      }
      slots := PopRotten(days, supply, arrived, day, heap, left, slots, plan, top);
      heap := heap - multiset{top};
    }
  }

  // ---------- eatenApples ----------

  ghost predicate IsEarliestEntry(heap: multiset<Entry>, top: Entry) {
    top in heap && forall x :: x in heap ==> top.0 <= x.0
  }

  /** The earliest entry stands for an earliest lot; a rotten entry can only be that of the day itself. */
  lemma TopIsEarliest(days: seq<int>, left: seq<nat>, slots: seq<Option<Entry>>, heap: multiset<Entry>,
                      arrived: nat, day: nat, top: Entry, lot: nat)
    requires Mirrors(heap, slots) && Stocked(days, left, slots, arrived, day)
    requires arrived == day + 1 || |days| == arrived <= day
    requires forall l: nat :: l < |slots| && l < day && slots[l].Some? ==> l + days[l] > day
    requires IsEarliestEntry(heap, top) && lot < |slots| && slots[lot] == Some(top)
    ensures Earliest(HeapDeadlines(days), left, day, lot)
  {
    forall other: nat | Available(HeapDeadlines(days), left, day, other)
      ensures HeapDeadlines(days)[lot] <= HeapDeadlines(days)[other]
    {
      MirrorsHas(heap, slots, other);
      assert slots[other].value.0 == other + days[other];
    }
  }

  lemma EmptyHeapIsEmptyTree(days: seq<int>, left: seq<nat>, slots: seq<Option<Entry>>, arrived: nat, day: nat)
    requires Mirrors(multiset{}, slots) && Stocked(days, left, slots, arrived, day)
    ensures forall lot: nat :: lot < |left| && lot < arrived && left[lot] > 0 ==> HeapDeadlines(days)[lot] <= day
  {
    forall lot: nat | lot < |days| && slots[lot].Some?
      ensures false
    {
      MirrorsHas(multiset{}, slots, lot);
    }
  }

  lemma AllLotsFresh(days: seq<int>, left: seq<nat>, slots: seq<Option<Entry>>, heap: multiset<Entry>, arrived: nat,
                     day: nat)
    requires Mirrors(heap, slots) && Stocked(days, left, slots, arrived, day) && AllFresh(heap, day)
    ensures forall l: nat :: l < |slots| && slots[l].Some? ==> l + days[l] > day
  {
    forall l: nat | l < |slots| && slots[l].Some?
      ensures l + days[l] > day
    {
      MirrorsHas(heap, slots, l);
    }
  }

  function WithLot(heap: multiset<Entry>, x: Entry): multiset<Entry> {
    if x.1 > 0 then heap + multiset{x} else heap
  }

  /** The day's lot goes into the heap. */
  lemma AddLot(days: seq<int>, supply: seq<nat>, i: nat, heap: multiset<Entry>,
               left: seq<nat>, slots: seq<Option<Entry>>, plan: Schedule, count: int)
    returns (slots': seq<Option<Entry>>)
    requires InStep(days, supply, i, i, heap, left, slots, plan) && AllFresh(heap, i)
    requires i < |days| && supply[i] == (if count > 0 then count else 0)
    ensures InStep(days, supply, i + 1, i, WithLot(heap, (i + days[i], count)), left, slots', plan)
    ensures forall l: nat :: l < |slots'| && l < i && slots'[l].Some? ==> l + days[l] > i
  {
    AllLotsFresh(days, left, slots, heap, i, i);
    slots' := slots;
    if count > 0 {
      MirrorsPush(heap, slots, i, (i + days[i], count));
      slots' := slots[i := Some((i + days[i], count))];
    }
  }

  /** Eating one apple of the top entry. */
  lemma EatTop(days: seq<int>, supply: seq<nat>, i: nat, heap: multiset<Entry>,
               left: seq<nat>, slots: seq<Option<Entry>>, plan: Schedule, top: Entry)
    returns (left': seq<nat>, slots': seq<Option<Entry>>, plan': Schedule)
    requires InStep(days, supply, i + 1, i, heap, left, slots, plan)
    requires forall l: nat :: l < |slots| && l < i && slots[l].Some? ==> l + days[l] > i
    requires IsEarliestEntry(heap, top)
    ensures InStep(days, supply, i + 1, i + 1, WithLot(heap - multiset{top}, (top.0, top.1 - 1)), left', slots', plan')
    ensures Eaten(plan') == Eaten(plan) + 1
  {
    var lot := MirrorsFind(heap, slots, top);
    TopIsEarliest(days, left, slots, heap, i + 1, i, top, lot);
    MirrorsPop(heap, slots, lot, top);
    GreedyEats(HeapDeadlines(days), supply, i, left, plan, lot);
    left', slots', plan' := Minus(left, lot, 1), slots[lot := None], plan + [Some(lot)];
    if top.1 - 1 > 0 {
      MirrorsPush(heap - multiset{top}, slots', lot, (top.0, top.1 - 1));
      slots' := slots'[lot := Some((top.0, top.1 - 1))];
    }
  }

  lemma EatNothing(days: seq<int>, supply: seq<nat>, i: nat, left: seq<nat>, slots: seq<Option<Entry>>, plan: Schedule)
    requires InStep(days, supply, i + 1, i, multiset{}, left, slots, plan)
    ensures InStep(days, supply, i + 1, i + 1, multiset{}, left, slots, plan + [None])
    ensures Eaten(plan + [None]) == Eaten(plan)
  {
    EmptyHeapIsEmptyTree(days, left, slots, i + 1, i);
    GreedyFasts(HeapDeadlines(days), supply, i, left, plan);
  }

  /** Eating from the top entry until it is used up or rotten. */
  lemma EatTopOut(days: seq<int>, supply: seq<nat>, i: nat, heap: multiset<Entry>,
                  left: seq<nat>, slots: seq<Option<Entry>>, plan: Schedule, top: Entry, num: nat)
    returns (left': seq<nat>, slots': seq<Option<Entry>>, plan': Schedule)
    requires InStep(days, supply, |days|, i, heap, left, slots, plan) && |days| <= i && AllFresh(heap, i)
    requires IsEarliestEntry(heap, top) && num == if top.0 - i < top.1 then top.0 - i else top.1
    ensures InStep(days, supply, |days|, i + num, heap - multiset{top}, left', slots', plan')
    ensures Eaten(plan') == Eaten(plan) + num
  {
    var lot := MirrorsFind(heap, slots, top);
    AllLotsFresh(days, left, slots, heap, |days|, i);
    TopIsEarliest(days, left, slots, heap, |days|, i, top, lot);
    MirrorsPop(heap, slots, lot, top);
    left', slots' := Minus(left, lot, num), slots[lot := None];
    plan' := GreedyEatsUntil(HeapDeadlines(days), supply, i, left, plan, lot, i + num, left');
  }

  /** eatenApples computes the largest number of apples any schedule can eat. */
  method EatenApples(apples: seq<int>, days: seq<int>) returns (ans: int)
    requires |apples| == |days|
    ensures IsMaximum(HeapDeadlines(days), Supply(apples), ans) && IsMost(apples, days, false, ans)
  {
    ans := 0;
    var n := |apples|;
    var heap: multiset<Entry> := multiset{};
    ghost var supply := Supply(apples);
    ghost var left, plan: Schedule := supply, [];
    ghost var slots: seq<Option<Entry>> := seq(n, _ => None);
    var i := 0;
    MirrorsStart(n);
    GreedyStart(HeapDeadlines(days), supply);
    while i < n
      invariant i <= n && ans == Eaten(plan)
      invariant InStep(days, supply, i, i, heap, left, slots, plan)
    {
      heap, slots := Clean(i, heap, days, supply, i, left, slots, plan);
      var rottenDay := i + days[i];
      var count := apples[i];
      slots := AddLot(days, supply, i, heap, left, slots, plan, count);
      ghost var filled := WithLot(heap, (rottenDay, count));
      if count > 0 {
        heap := heap + multiset{(rottenDay, count)};
      }
      assert heap == filled;
      var ate;
      heap, ate, left, slots, plan := EatToday(i, heap, days, supply, left, slots, plan);
      if ate {
        ans := ans + 1;
      }
      i := i + 1;
    }
    ans := EatTheRest(i, ans, heap, days, supply, left, slots, plan);
    MaximumIsMost(apples, days, false, ans);
  }

  /** Eating one apple of the earliest entry, if there is one. */
  method EatToday(i: nat, heap0: multiset<Entry>, ghost days: seq<int>, ghost supply: seq<nat>,
                  ghost left0: seq<nat>, ghost slots0: seq<Option<Entry>>, ghost plan0: Schedule)
    returns (heap: multiset<Entry>, ate: bool, ghost left: seq<nat>, ghost slots: seq<Option<Entry>>,
             ghost plan: Schedule)
    requires InStep(days, supply, i + 1, i, heap0, left0, slots0, plan0)
    requires forall l: nat :: l < |slots0| && l < i && slots0[l].Some? ==> l + days[l] > i
    ensures InStep(days, supply, i + 1, i + 1, heap, left, slots, plan)
    ensures Eaten(plan) == Eaten(plan0) + (if ate then 1 else 0)
  {
    if heap0 == multiset{} {
      EatNothing(days, supply, i, left0, slots0, plan0);
      heap, ate, left, slots, plan := heap0, false, left0, slots0, plan0 + [None];
    } else {
      var curr := EarliestEntry(heap0);
      EntryIsPositive(heap0, left0, slots0, days, i + 1, i, curr);
      left, slots, plan := EatTop(days, supply, i, heap0, left0, slots0, plan0, curr);
      heap := heap0 - multiset{curr};
      if curr.1 - 1 != 0 {
        heap := heap + multiset{(curr.0, curr.1 - 1)};
      }
      ate := true;
    }
  }

  method EarliestEntry(heap: multiset<Entry>) returns (top: Entry)
    requires heap != multiset{}
    ensures IsEarliestEntry(heap, top)
  {
    var rotsLater := (a, b) => RotsLater(a, b);
    top := Top(heap, rotsLater);
  }

  /** The second loop: no lot arrives any more, so the earliest one is eaten for as long as it lasts. */
  method EatTheRest(i0: nat, ans0: int, heap0: multiset<Entry>, ghost days: seq<int>, ghost supply: seq<nat>,
                    ghost left0: seq<nat>, ghost slots0: seq<Option<Entry>>, ghost plan0: Schedule)
    returns (ans: int)
    requires i0 == |days| && InStep(days, supply, |days|, i0, heap0, left0, slots0, plan0) && ans0 == Eaten(plan0)
    ensures IsMaximum(HeapDeadlines(days), supply, ans)
  {
    var i, heap := i0, heap0;
    ans := ans0;
    ghost var left, slots, plan := left0, slots0, plan0;
    while heap != multiset{}
      invariant i >= |days| && ans == Eaten(plan)
      invariant InStep(days, supply, |days|, i, heap, left, slots, plan)
      decreases |heap|
    {
      heap, slots := Clean(i, heap, days, supply, |days|, left, slots, plan);
      if heap == multiset{} {
        break;
      }
      var num;
      heap, num, left, slots, plan := EatTopFor(i, heap, days, supply, left, slots, plan);
      ans := ans + num;
      i := i + num;
    }
    NothingLeft(days, supply, i, left, slots, plan);
  }

  /** Eats the earliest entry for as many days as it has apples, or until it rots. */
  method EatTopFor(i: nat, heap0: multiset<Entry>, ghost days: seq<int>, ghost supply: seq<nat>,
                   ghost left0: seq<nat>, ghost slots0: seq<Option<Entry>>, ghost plan0: Schedule)
    returns (heap: multiset<Entry>, num: nat, ghost left: seq<nat>, ghost slots: seq<Option<Entry>>,
             ghost plan: Schedule)
    requires InStep(days, supply, |days|, i, heap0, left0, slots0, plan0) && |days| <= i
    requires heap0 != multiset{} && AllFresh(heap0, i)
    ensures InStep(days, supply, |days|, i + num, heap, left, slots, plan)
    ensures Eaten(plan) == Eaten(plan0) + num && |heap| < |heap0|
  {
    var curr := EarliestEntry(heap0);
    EntryIsPositive(heap0, left0, slots0, days, |days|, i, curr);
    num := if curr.0 - i < curr.1 then curr.0 - i else curr.1;
    left, slots, plan := EatTopOut(days, supply, i, heap0, left0, slots0, plan0, curr, num);
    heap := heap0 - multiset{curr};
  }

  lemma NothingLeft(days: seq<int>, supply: seq<nat>, i: nat, left: seq<nat>, slots: seq<Option<Entry>>, plan: Schedule)
    requires InStep(days, supply, |days|, i, multiset{}, left, slots, plan)
    ensures IsMaximum(HeapDeadlines(days), supply, Eaten(plan))
  {
    EmptyHeapIsEmptyTree(days, left, slots, |days|, i);
    GreedyEnds(HeapDeadlines(days), supply, i, left, plan);
  }

  lemma EntryIsPositive(heap: multiset<Entry>, left: seq<nat>, slots: seq<Option<Entry>>, days: seq<int>,
                        arrived: nat, day: nat, x: Entry)
    requires Mirrors(heap, slots) && Stocked(days, left, slots, arrived, day) && x in heap
    ensures x.1 > 0
  {
    var lot := MirrorsFind(heap, slots, x);
  }

  // ---------- eatenApples_my ----------

  /** How many apples are left of the first lots, among those that rot on the given day. */
  function LeftBy(deadline: seq<int>, left: seq<nat>, lots: nat, x: int): nat
    requires lots <= |left| == |deadline|
  {
    if lots == 0 then 0
    else LeftBy(deadline, left, lots - 1, x) + (if deadline[lots - 1] == x then left[lots - 1] else 0)
  }

  lemma {:induction false} LeftByMinus(deadline: seq<int>, left: seq<nat>, lots: nat, x: int, lot: nat)
    requires lots <= |left| == |deadline| && lot < |left| && left[lot] > 0
    ensures LeftBy(deadline, Minus(left, lot, 1), lots, x)
         == LeftBy(deadline, left, lots, x) - (if lot < lots && deadline[lot] == x then 1 else 0)
  {
    if lots > 0 {
      LeftByMinus(deadline, left, lots - 1, x, lot);
    }
  }

  lemma {:induction false} LeftByFind(deadline: seq<int>, left: seq<nat>, lots: nat, x: int) returns (lot: nat)
    requires lots <= |left| == |deadline| && LeftBy(deadline, left, lots, x) > 0
    ensures lot < lots && deadline[lot] == x && left[lot] > 0
  {
    if deadline[lots - 1] == x && left[lots - 1] > 0 {
      lot := lots - 1;
    } else {
      lot := LeftByFind(deadline, left, lots - 1, x);
    }
  }

  lemma {:induction false} LeftByHas(deadline: seq<int>, left: seq<nat>, lots: nat, lot: nat)
    requires lot < lots <= |left| == |deadline|
    ensures LeftBy(deadline, left, lots, deadline[lot]) >= left[lot]
  {
    if lot < lots - 1 {
      LeftByHas(deadline, left, lots - 1, lot);
    }
  }

  /** From a given day on, the map holds what is left of the lots that have arrived, by the day they rot. */
  ghost predicate Tallies(remain: map<int, int>, deadline: seq<int>, left: seq<nat>, arrived: nat, from: int) {
    && arrived <= |left| == |deadline|
    && forall x {:trigger x in remain} :: from <= x ==>
         && (x in remain <==> LeftBy(deadline, left, arrived, x) > 0)
         && (x in remain ==> remain[x] == LeftBy(deadline, left, arrived, x))
  }

  lemma SomeDay(days: set<int>)
    requires days != {}
    ensures exists x :: x in days
  {
    assert (forall x :: x !in days) ==> days == {};
  }

  /** Erasing the apples that have rotted. */
  method EraseRotten(i: int, remain0: map<int, int>) returns (remain: map<int, int>)
    ensures forall x :: x in remain <==> x in remain0 && x > i
    ensures forall x :: x in remain ==> remain[x] == remain0[x]
  {
    remain := remain0;
    var rest := remain0.Keys;
    while rest != {}
      invariant forall x :: x in remain <==> x in remain0 && (x > i || x in rest)
      invariant forall x :: x in remain ==> remain[x] == remain0[x]
    {
      SomeDay(rest);
      var p :| p in rest;
      if i >= p {
        remain := remain - {p};
      }
      rest := rest - {p};
    }
  }

  method FirstKey(remain: map<int, int>) returns (first: int)
    requires remain != map[]
    ensures first in remain && forall x :: x in remain ==> first <= x
  {
    SomeDay(remain.Keys);
    first :| first in remain;
    var rest := remain.Keys;
    while rest != {}
      invariant first in remain
      invariant forall x :: x in remain && x !in rest ==> first <= x
    {
      SomeDay(rest);
      var x :| x in rest;
      if x < first {
        first := x;
      }
      rest := rest - {x};
    }
  }

  lemma FirstIsEarliest(remain: map<int, int>, deadline: seq<int>, left: seq<nat>, arrived: nat, day: nat, first: int)
    returns (lot: nat)
    requires Tallies(remain, deadline, left, arrived, day + 1) && (arrived == day + 1 || |left| == arrived <= day)
    requires first in remain && first > day && forall x :: x in remain ==> first <= x
    ensures Earliest(deadline, left, day, lot) && lot < arrived && deadline[lot] == first
  {
    lot := LeftByFind(deadline, left, arrived, first);
    forall other: nat | Available(deadline, left, day, other)
      ensures deadline[lot] <= deadline[other]
    {
      LeftByHas(deadline, left, arrived, other);
      assert deadline[other] in remain;
    }
  }

  lemma NothingTallied(deadline: seq<int>, left: seq<nat>, arrived: nat, from: int)
    requires Tallies(map[], deadline, left, arrived, from)
    ensures forall lot: nat :: lot < arrived && left[lot] > 0 ==> deadline[lot] < from
  {
    forall lot: nat | lot < arrived && left[lot] > 0
      ensures deadline[lot] < from
    {
      LeftByHas(deadline, left, arrived, lot);
      var none: map<int, int> := map[];
      assert deadline[lot] !in none;
    }
  }

  /** One apple of the earliest day is eaten. */
  lemma TalliesMinus(remain: map<int, int>, deadline: seq<int>, left: seq<nat>, arrived: nat, from: int, lot: nat)
    requires Tallies(remain, deadline, left, arrived, from)
    requires lot < arrived && left[lot] > 0 && deadline[lot] in remain && from <= deadline[lot]
    ensures var k := deadline[lot];
      var remain' := if remain[k] - 1 > 0 then remain[k := remain[k] - 1] else remain - {k};
      Tallies(remain', deadline, Minus(left, lot, 1), arrived, from)
  {
    forall x
      ensures LeftBy(deadline, Minus(left, lot, 1), arrived, x)
           == LeftBy(deadline, left, arrived, x) - (if deadline[lot] == x then 1 else 0)
    {
      LeftByMinus(deadline, left, arrived, x, lot);
    }
  }

  /** A day on or after which nothing is left, whatever is eaten. */
  function Horizon(deadline: seq<int>): (r: int)
    ensures |deadline| <= r && forall i :: 0 <= i < |deadline| ==> deadline[i] <= r
  {
    if deadline == [] then 0
    else
      var d, r := deadline[|deadline| - 1], Horizon(deadline[..|deadline| - 1]);
      if d > r then d + 1 else r + 1
  }

  /** The day's lot goes into the map. */
  method TallyLot(i: nat, remain0: map<int, int>, apples: seq<int>, days: seq<int>, ghost left: seq<nat>)
    returns (remain: map<int, int>)
    requires |apples| == |days| && Untouched(Supply(apples), left, i)
    requires Tallies(remain0, Deadlines(days), left, if i < |days| then i else |days|, i)
    ensures Tallies(remain, Deadlines(days), left, if i < |days| then i + 1 else |days|, i + 1)
    ensures forall x :: x in remain && x !in remain0 ==> i < |days| && x == Deadlines(days)[i]
  {
    remain := remain0;
    if i < |apples| && apples[i] > 0 {
      var key := i + days[i];
      remain := remain[key := (if key in remain then remain[key] else 0) + apples[i]];
    }
  }

  /** One apple of the earliest day is eaten, if there is one. */
  method EatFirst(i: nat, remain0: map<int, int>, ghost deadline: seq<int>, ghost supply: seq<nat>, ghost arrived: nat,
                  ghost left0: seq<nat>, ghost plan0: Schedule)
    returns (remain: map<int, int>, ate: bool, ghost left: seq<nat>, ghost plan: Schedule)
    requires Greedy(deadline, supply, i, left0, plan0) && Untouched(supply, left0, arrived)
    requires Tallies(remain0, deadline, left0, arrived, i + 1) && (arrived == i + 1 || |left0| == arrived <= i)
    requires forall x :: x in remain0 ==> i < x
    ensures Greedy(deadline, supply, i + 1, left, plan) && Untouched(supply, left, arrived)
    ensures Tallies(remain, deadline, left, arrived, i + 1)
    ensures Eaten(plan) == Eaten(plan0) + (if ate then 1 else 0)
    ensures forall x :: x in remain ==> x in remain0
  {
    remain, left := remain0, left0;
    ate := remain != map[];
    if ate {
      var p := FirstKey(remain);
      ghost var lot := FirstIsEarliest(remain, deadline, left, arrived, i, p);
      GreedyEats(deadline, supply, i, left, plan0, lot);
      TalliesMinus(remain, deadline, left, arrived, i + 1, lot);
      left, plan := Minus(left, lot, 1), plan0 + [Some(lot)];
      if remain[p] - 1 > 0 {
        remain := remain[p := remain[p] - 1];
      } else {
        remain := remain - {p};
      }
    } else {
      NothingTallied(deadline, left, arrived, i + 1);
      GreedyFasts(deadline, supply, i, left, plan0);
      plan := plan0 + [None];
    }
  }

  /** eatenApples_my computes the largest number of apples any schedule can eat, with the deadlines as given. */
  method EatenApplesMy(apples: seq<int>, days: seq<int>) returns (ans: int)
    requires |apples| == |days|
    ensures IsMaximum(Deadlines(days), Supply(apples), ans) && IsMost(apples, days, true, ans)
  {
    ans := 0;
    var n := |apples|;
    var remain: map<int, int> := map[];
    ghost var deadline, supply := Deadlines(days), Supply(apples);
    ghost var left, plan: Schedule := supply, [];
    var i := 0;
    GreedyStart(deadline, supply);
    while i < n || remain != map[]
      invariant ans == Eaten(plan) && Greedy(deadline, supply, i, left, plan)
      invariant Tallies(remain, deadline, left, if i < n then i else n, i)
      invariant Untouched(supply, left, if i < n then i else n)
      invariant forall x :: x in remain ==> i <= x <= Horizon(deadline)
      decreases Horizon(deadline) - i
    {
      if remain != map[] { SomeDay(remain.Keys); }
      remain := TallyLot(i, remain, apples, days, left);
      remain := EraseRotten(i, remain);
      var ate;
      remain, ate, left, plan := EatFirst(i, remain, deadline, supply, if i < n then i + 1 else n, left, plan);
      if ate {
        ans := ans + 1;
      }
      i := i + 1;
    }
    NothingTallied(deadline, left, n, i);
    GreedyEnds(deadline, supply, i, left, plan);
    MaximumIsMost(apples, days, true, ans);
  }
}
