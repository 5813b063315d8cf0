/**
 Eating rotting apples, one a day.  A lot of apples ripens on each of the first days and
 rots on its own deadline.  This module says what a schedule is, and shows that eating an
 apple of the earliest deadline never costs an apple in total.
 */
module AppleSchedule {
  import opened Wrappers

  /** For each day, from some first day on, the lot eaten from, if any. */
  type Schedule = seq<Option<nat>>

  function Eaten(s: Schedule): nat {
    if s == [] then 0 else (if s[0].Some? then 1 else 0) + Eaten(s[1..])
  }

  function Uses(s: Schedule, lot: nat): nat {
    if s == [] then 0 else (if s[0] == Some(lot) then 1 else 0) + Uses(s[1..], lot)
  }

  /** A lot can be eaten from its own day on, before its deadline. */
  predicate Edible(deadline: seq<int>, lot: nat, day: int) {
    lot < |deadline| && lot <= day < deadline[lot]
  }

  /** A schedule starting on the given day that never exceeds what is left of each lot. */
  ghost predicate Feasible(deadline: seq<int>, left: seq<nat>, day: nat, s: Schedule)
    requires |left| == |deadline|
  {
    && (forall k :: 0 <= k < |s| && s[k].Some? ==> Edible(deadline, s[k].value, day + k))
    && (forall lot :: 0 <= lot < |left| ==> Uses(s, lot) <= left[lot])
  }

  /** most is the largest number of apples that any schedule from day 0 on can eat. */
  ghost predicate IsMaximum(deadline: seq<int>, supply: seq<nat>, most: int)
    requires |supply| == |deadline|
  {
    && (exists s: Schedule :: Feasible(deadline, supply, 0, s) && Eaten(s) == most)
    && (forall s: Schedule :: Feasible(deadline, supply, 0, s) ==> Eaten(s) <= most)
  }

  // ---------- Counting ----------

  lemma {:induction false} SetDay(s: Schedule, k: nat, x: Option<nat>)
    requires k < |s|
    ensures Eaten(s[k := x]) + (if s[k].Some? then 1 else 0) == Eaten(s) + (if x.Some? then 1 else 0)
    ensures forall lot: nat :: Uses(s[k := x], lot) + (if s[k] == Some(lot) then 1 else 0)
                       == Uses(s, lot) + (if x == Some(lot) then 1 else 0)
  {
    if k == 0 {
      assert s[0 := x][1..] == s[1..];
    } else {
      assert s[k := x][1..] == s[1..][k - 1 := x];
      SetDay(s[1..], k - 1, x);
    }
  }

  lemma {:induction false} AddDay(s: Schedule, x: Option<nat>)
    ensures Eaten(s + [x]) == Eaten(s) + (if x.Some? then 1 else 0)
    ensures forall lot: nat :: Uses(s + [x], lot) == Uses(s, lot) + (if x == Some(lot) then 1 else 0)
  {
    if s != [] {
      assert (s + [x])[1..] == s[1..] + [x];
      AddDay(s[1..], x);
    }
  }

  lemma {:induction false} UsedSomewhere(s: Schedule, lot: nat) returns (k: nat)
    requires Uses(s, lot) > 0
    ensures k < |s| && s[k] == Some(lot)
  {
    if s[0] == Some(lot) {
      k := 0;
    } else {
      k := UsedSomewhere(s[1..], lot);
      k := k + 1;
    }
  }

  lemma {:induction false} NothingEdible(s: Schedule)
    requires forall k :: 0 <= k < |s| ==> s[k] == None
    ensures Eaten(s) == 0
  {
    if s != [] {
      NothingEdible(s[1..]);
    }
  }

  /** The days on which something is eaten. */
  ghost function Meals(s: Schedule): set<nat> {
    set k: nat | k < |s| && s[k].Some?
  }

  /** The days on which something of the lot is eaten. */
  ghost function MealsOf(s: Schedule, lot: nat): set<nat> {
    set k: nat | k < |s| && s[k] == Some(lot)
  }

  lemma MealsNext(s: Schedule, x: Option<nat>)
    ensures Meals(s + [x]) == Meals(s) + (if x.Some? then {|s|} else {}) && |s| !in Meals(s)
  {
  }

  lemma MealsOfNext(s: Schedule, x: Option<nat>, lot: nat)
    ensures MealsOf(s + [x], lot) == MealsOf(s, lot) + (if x == Some(lot) then {|s|} else {}) && |s| !in MealsOf(s, lot)
  {
  }

  lemma {:induction false} EatenIsMeals(s: Schedule)
    ensures Eaten(s) == |Meals(s)|
  {
    if s == [] {
      assert Meals(s) == {};
    } else {
      var t, x := s[..|s| - 1], s[|s| - 1];
      assert s == t + [x];
      EatenIsMeals(t);
      AddDay(t, x);
      MealsNext(t, x);
    }
  }

  lemma {:induction false} UsesIsMeals(s: Schedule, lot: nat)
    ensures Uses(s, lot) == |MealsOf(s, lot)|
  {
    if s == [] {
      assert MealsOf(s, lot) == {};
    } else {
      var t, x := s[..|s| - 1], s[|s| - 1];
      assert s == t + [x];
      UsesIsMeals(t, lot);
      AddDay(t, x);
      MealsOfNext(t, x, lot);
    }
  }

  // ---------- The exchange argument ----------

  function Minus(left: seq<nat>, lot: nat, num: nat): seq<nat>
    requires lot < |left| && num <= left[lot]
  {
    left[lot := left[lot] - num]
  }

  lemma MinusTwice(left: seq<nat>, lot: nat, num: nat)
    requires lot < |left| && 0 < num <= left[lot]
    ensures Minus(Minus(left, lot, 1), lot, num - 1) == Minus(left, lot, num)
  {
  }

  ghost predicate Available(deadline: seq<int>, left: seq<nat>, day: nat, lot: nat)
    requires |left| == |deadline|
  {
    Edible(deadline, lot, day) && left[lot] > 0
  }

  /** lot is available and none of the available lots rots earlier. */
  ghost predicate Earliest(deadline: seq<int>, left: seq<nat>, day: nat, lot: nat)
    requires |left| == |deadline|
  {
    && Available(deadline, left, day, lot)
    && forall other: nat :: Available(deadline, left, day, other) ==> deadline[lot] <= deadline[other]
  }

  lemma TailIsFeasible(deadline: seq<int>, left: seq<nat>, day: nat, s: Schedule)
    requires |left| == |deadline| && Feasible(deadline, left, day, s) && s != []
    ensures Feasible(deadline, left, day + 1, s[1..])
    ensures s[0].Some? ==> Available(deadline, left, day, s[0].value)
  {
    forall k | 0 <= k < |s[1..]| && s[1..][k].Some?
      ensures Edible(deadline, s[1..][k].value, day + 1 + k)
    {
      assert s[1..][k] == s[k + 1];
    }
    if s[0].Some? {
      assert Uses(s, s[0].value) > 0;
    }
  }

  /**
   Whatever a schedule does today, eating from the earliest lot today leaves a schedule for the rest that
   loses nothing.
   */
  lemma Exchange(deadline: seq<int>, left: seq<nat>, day: nat, lot: nat, s: Schedule) returns (rest: Schedule)
    requires |left| == |deadline| && Feasible(deadline, left, day, s) && Earliest(deadline, left, day, lot)
    ensures Feasible(deadline, Minus(left, lot, 1), day + 1, rest)
    ensures Eaten(s) <= Eaten(rest) + 1
  {
    if s == [] {
      return [];
    }
    TailIsFeasible(deadline, left, day, s);
    rest := s[1..];
    if s[0] != Some(lot) && Uses(rest, lot) > 0 {
      var k := UsedSomewhere(rest, lot);
      SetDay(rest, k, s[0]);
      assert Edible(deadline, rest[k].value, day + 1 + k);
      rest := rest[k := s[0]];
    }
  }

  lemma NothingToday(deadline: seq<int>, left: seq<nat>, day: nat, s: Schedule) returns (rest: Schedule)
    requires |left| == |deadline| && Feasible(deadline, left, day, s)
    requires forall lot: nat :: !Available(deadline, left, day, lot)
    ensures Feasible(deadline, left, day + 1, rest) && Eaten(s) == Eaten(rest)
  {
    if s == [] {
      return [];
    }
    TailIsFeasible(deadline, left, day, s);
    rest := s[1..];
  }

  // ---------- Greedy runs ----------

  /**
   plan is what has been eaten before the given day, left is what it leaves, and no schedule
   does better than plan followed by the best that left still allows.
   */
  ghost predicate Greedy(deadline: seq<int>, supply: seq<nat>, day: nat, left: seq<nat>, plan: Schedule) {
    && |supply| == |deadline| == |left|
    && |plan| == day && Feasible(deadline, supply, 0, plan)
    && (forall lot :: 0 <= lot < |left| ==> left[lot] + Uses(plan, lot) == supply[lot])
    && (forall s: Schedule {:trigger CanCatchUp(deadline, day, left, Eaten(plan), Eaten(s))} ::
          Feasible(deadline, supply, 0, s) ==> CanCatchUp(deadline, day, left, Eaten(plan), Eaten(s)))
  }

  ghost predicate CanCatchUp(deadline: seq<int>, day: nat, left: seq<nat>, eaten: nat, goal: nat)
    requires |left| == |deadline|
  {
    exists rest: Schedule :: Feasible(deadline, left, day, rest) && goal <= eaten + Eaten(rest)
  }

  lemma GreedyStart(deadline: seq<int>, supply: seq<nat>)
    requires |supply| == |deadline|
    ensures Greedy(deadline, supply, 0, supply, [])
  {
  }

  lemma GreedyEats(deadline: seq<int>, supply: seq<nat>, day: nat, left: seq<nat>, plan: Schedule, lot: nat)
    requires Greedy(deadline, supply, day, left, plan) && Earliest(deadline, left, day, lot)
    ensures Greedy(deadline, supply, day + 1, Minus(left, lot, 1), plan + [Some(lot)])
    ensures Eaten(plan + [Some(lot)]) == Eaten(plan) + 1
  {
    var left', plan' := Minus(left, lot, 1), plan + [Some(lot)];
    AddDay(plan, Some(lot));
    forall s: Schedule | Feasible(deadline, supply, 0, s)
      ensures CanCatchUp(deadline, day + 1, left', Eaten(plan'), Eaten(s))
    {
      assert CanCatchUp(deadline, day, left, Eaten(plan), Eaten(s));
      var rest: Schedule :| Feasible(deadline, left, day, rest) && Eaten(s) <= Eaten(plan) + Eaten(rest);
      var rest' := Exchange(deadline, left, day, lot, rest);
    }
  }

  lemma GreedyFasts(deadline: seq<int>, supply: seq<nat>, day: nat, left: seq<nat>, plan: Schedule)
    requires Greedy(deadline, supply, day, left, plan)
    requires forall lot: nat :: !Available(deadline, left, day, lot)
    ensures Greedy(deadline, supply, day + 1, left, plan + [None])
    ensures Eaten(plan + [None]) == Eaten(plan)
  {
    AddDay(plan, None);
    forall s: Schedule | Feasible(deadline, supply, 0, s)
      ensures CanCatchUp(deadline, day + 1, left, Eaten(plan + [None]), Eaten(s))
    {
      assert CanCatchUp(deadline, day, left, Eaten(plan), Eaten(s));
      var rest: Schedule :| Feasible(deadline, left, day, rest) && Eaten(s) <= Eaten(plan) + Eaten(rest);
      var rest' := NothingToday(deadline, left, day, rest);
    }
  }

  /** When everything left is rotten, the greedy plan is a best schedule. */
  lemma GreedyEnds(deadline: seq<int>, supply: seq<nat>, day: nat, left: seq<nat>, plan: Schedule)
    requires Greedy(deadline, supply, day, left, plan)
    requires forall lot :: 0 <= lot < |left| && left[lot] > 0 ==> deadline[lot] <= day
    ensures IsMaximum(deadline, supply, Eaten(plan))
  {
    forall s: Schedule | Feasible(deadline, supply, 0, s)
      ensures Eaten(s) <= Eaten(plan)
    {
      assert CanCatchUp(deadline, day, left, Eaten(plan), Eaten(s));
      var rest: Schedule :| Feasible(deadline, left, day, rest) && Eaten(s) <= Eaten(plan) + Eaten(rest);
      forall k | 0 <= k < |rest|
        ensures rest[k] == None
      {
        if rest[k].Some? {
          assert Edible(deadline, rest[k].value, day + k);
          UsesAt(rest, k);
        }
      }
      NothingEdible(rest);
    }
  }

  lemma {:induction false} UsesAt(s: Schedule, k: nat)
    requires k < |s| && s[k].Some?
    ensures Uses(s, s[k].value) > 0
  {
    if k > 0 {
      UsesAt(s[1..], k - 1);
    }
  }

  /** Eating from one lot every day until a given day, while it stays the earliest. */
  lemma {:induction false} GreedyEatsUntil(deadline: seq<int>, supply: seq<nat>, day: nat, left: seq<nat>,
                                           plan: Schedule, lot: nat, until: nat, left': seq<nat>)
    returns (plan': Schedule)
    requires Greedy(deadline, supply, day, left, plan) && lot < |left|
    requires lot <= day <= until <= deadline[lot] && until - day <= left[lot]
    requires forall other: nat :: Available(deadline, left, day, other) ==> deadline[lot] <= deadline[other]
    requires |deadline| <= day
    requires left' == Minus(left, lot, until - day)
    ensures Greedy(deadline, supply, until, left', plan')
    ensures Eaten(plan') == Eaten(plan) + (until - day)
    decreases until - day
  {
    if day == until {
      assert left' == left;
      plan' := plan;
    } else {
      GreedyEats(deadline, supply, day, left, plan, lot);
      var left1 := Minus(left, lot, 1);
      forall other: nat | Available(deadline, left1, day + 1, other)
        ensures deadline[lot] <= deadline[other]
      {
        assert Available(deadline, left, day, other);
      }
      MinusTwice(left, lot, until - day);
      plan' := GreedyEatsUntil(deadline, supply, day + 1, left1, plan + [Some(lot)], lot, until, left');
    }
  }
}
