/**
 When the two apple eaters agree.  The heap version eats one apple of a lot that is rotten on
 arrival, on the day it arrives; the other does not.  That makes no difference exactly when each
 such day is needed anyway: it lies in a stretch of days that lots good only within the stretch
 can fill.
 */
module AppleAgreement {
  import opened Wrappers
  import opened Listings
  import opened AppleSchedule
  import opened AppleEating

  /** Nothing is eaten on that day. */
  predicate Fasts(s: Schedule, day: nat) {
    day < |s| ==> s[day] == None
  }

  /** Apples arrive on day i that are rotten already. */
  predicate RottenLot(apples: seq<int>, days: seq<int>, i: nat) {
    i < |apples| && i < |days| && apples[i] > 0 && days[i] <= 0
  }

  /** s eats on every day from lo to hi, and only from lots that arrive and rot within those days. */
  ghost predicate Fills(deadline: seq<int>, s: Schedule, lo: nat, hi: nat) {
    && hi <= |s|
    && forall x :: lo <= x < hi ==>
         s[x].Some? && s[x].value < |deadline| && lo <= s[x].value && deadline[s[x].value] <= hi
  }

  /** The day lies in a stretch of days that lots good only within it can fill. */
  ghost predicate Busy(deadline: seq<int>, supply: seq<nat>, day: nat)
    requires |supply| == |deadline|
  {
    exists s: Schedule, lo: nat, hi: nat ::
      lo <= day < hi && Feasible(deadline, supply, 0, s) && Fills(deadline, s, lo, hi)
  }

  ghost predicate Best(deadline: seq<int>, supply: seq<nat>, s: Schedule, most: int)
    requires |supply| == |deadline|
  {
    Feasible(deadline, supply, 0, s) && Eaten(s) == most
  }

  // ---------- Counting ----------

  lemma {:induction false} Concat(s: Schedule, t: Schedule)
    ensures Eaten(s + t) == Eaten(s) + Eaten(t)
    ensures forall lot: nat :: Uses(s + t, lot) == Uses(s, lot) + Uses(t, lot)
  {
    if s == [] {
      assert s + t == t;
    } else {
      assert (s + t)[1..] == s[1..] + t;
      Concat(s[1..], t);
    }
  }

  lemma Stretches(s: Schedule, lo: nat, hi: nat)
    requires lo <= hi <= |s|
    ensures Eaten(s) == Eaten(s[..lo]) + Eaten(s[lo..hi]) + Eaten(s[hi..])
    ensures forall lot: nat :: Uses(s, lot) == Uses(s[..lo], lot) + Uses(s[lo..hi], lot) + Uses(s[hi..], lot)
  {
    assert s[..hi] == s[..lo] + s[lo..hi] && s == s[..hi] + s[hi..];
    Concat(s[..lo], s[lo..hi]);
    Concat(s[..hi], s[hi..]);
  }

  lemma {:induction false} EatenInDays(s: Schedule)
    ensures Eaten(s) <= |s|
    ensures (forall k :: 0 <= k < |s| ==> s[k].Some?) ==> Eaten(s) == |s|
  {
    if s != [] {
      EatenInDays(s[1..]);
    }
  }

  /** The same schedule, for at least n days. */
  lemma {:induction false} Lengthened(deadline: seq<int>, supply: seq<nat>, s: Schedule, n: nat) returns (t: Schedule)
    requires |supply| == |deadline| && Feasible(deadline, supply, 0, s)
    ensures |t| >= n && s <= t && Feasible(deadline, supply, 0, t) && Eaten(t) == Eaten(s)
    ensures forall k :: |s| <= k < |t| ==> t[k] == None
    decreases n - |s|
  {
    if |s| >= n {
      t := s;
    } else {
      AddDay(s, None);
      t := Lengthened(deadline, supply, s + [None], n);
    }
  }

  lemma {:induction false} Unused(s: Schedule, lot: nat)
    requires forall k :: 0 <= k < |s| ==> s[k] != Some(lot)
    ensures Uses(s, lot) == 0
  {
    if s != [] {
      Unused(s[1..], lot);
    }
  }

  // ---------- A day on which nothing is eaten ----------

  lemma SoundIsHeapFeasible(days: seq<int>, supply: seq<nat>, s: Schedule)
    requires |supply| == |days| && Feasible(Deadlines(days), supply, 0, s)
    ensures Feasible(HeapDeadlines(days), supply, 0, s)
    ensures forall k :: 0 <= k < |s| && s[k].Some? ==> s[k].value < |days| && days[s[k].value] > 0
  {
    forall k | 0 <= k < |s| && s[k].Some?
      ensures Edible(HeapDeadlines(days), s[k].value, k) && days[s[k].value] > 0
    {
      assert Edible(Deadlines(days), s[k].value, 0 + k);
    }
  }

  /** A day without a meal on which a rotten lot arrives is worth one more apple to the heap version. */
  lemma FastingLoses(apples: seq<int>, days: seq<int>, s: Schedule, i: nat) returns (t: Schedule)
    requires |apples| == |days| && Feasible(Deadlines(days), Supply(apples), 0, s)
    requires RottenLot(apples, days, i) && Fasts(s, i)
    ensures Feasible(HeapDeadlines(days), Supply(apples), 0, t) && Eaten(t) == Eaten(s) + 1
  {
    t := Lengthened(Deadlines(days), Supply(apples), s, i + 1);
    SoundIsHeapFeasible(days, Supply(apples), t);
    Unused(t, i);
    SetDay(t, i, Some(i));
    t := t[i := Some(i)];
  }

  // ---------- Moving meals along ----------

  /** From day p[0] each meal could be had on the next day of p instead. */
  ghost predicate Trail(deadline: seq<int>, s: Schedule, p: seq<nat>) {
    && p != [] && Distinct(p)
    && (forall j :: 0 <= j < |p| ==> p[j] < |s|)
    && (forall j :: 0 <= j < |p| - 1 ==> s[p[j]].Some? && Edible(deadline, s[p[j]].value, p[j + 1]))
  }

  /** If nothing is eaten on the last day of a trail, it could as well be the first. */
  lemma {:induction false} MoveMeals(deadline: seq<int>, supply: seq<nat>, s: Schedule, p: seq<nat>)
    returns (t: Schedule)
    requires |supply| == |deadline| && Feasible(deadline, supply, 0, s)
    requires Trail(deadline, s, p) && s[p[|p| - 1]] == None
    ensures Best(deadline, supply, t, Eaten(s)) && Fasts(t, p[0])
    decreases |p|
  {
    if |p| == 1 {
      t := s;
    } else {
      var from, to := p[|p| - 2], p[|p| - 1];
      var s1 := s[to := s[from]];
      var s2 := s1[from := None];
      SetDay(s, to, s[from]);
      SetDay(s1, from, None);
      var p' := p[..|p| - 1];
      assert Trail(deadline, s2, p');
      t := MoveMeals(deadline, supply, s2, p');
    }
  }

  /** p leads from the day to day x without leaving the stretch. */
  ghost predicate LeadsTo(deadline: seq<int>, s: Schedule, day: nat, lo: nat, hi: nat, x: int, p: seq<nat>) {
    Trail(deadline, s, p) && p[0] == day && p[|p| - 1] == x && forall j :: 0 <= j < |p| ==> lo <= p[j] < hi
  }

  ghost predicate Reached(deadline: seq<int>, s: Schedule, day: nat, lo: nat, hi: nat, x: int) {
    exists p :: LeadsTo(deadline, s, day, lo, hi, x, p)
  }

  lemma LeadsOn(deadline: seq<int>, s: Schedule, day: nat, lo: nat, hi: nat, x: nat, y: nat, p: seq<nat>)
    requires LeadsTo(deadline, s, day, lo, hi, x, p) && s[x].Some?
    requires (y == lo - 1 || y == hi) && y < |s| && Edible(deadline, s[x].value, y)
    ensures LeadsTo(deadline, s, day, Min(lo, y), Max(hi, y + 1), y, p + [y])
  {
  }

  /** All days of the stretch are reached, from days within it. */
  ghost predicate Within(deadline: seq<int>, s: Schedule, day: nat, lo: nat, hi: nat) {
    forall x :: lo <= x < hi ==> Reached(deadline, s, day, lo, hi, x)
  }

  lemma StretchGrows(deadline: seq<int>, s: Schedule, day: nat, lo: nat, hi: nat, x: nat, y: nat)
    requires Within(deadline, s, day, lo, hi) && lo <= x < hi <= |s| && s[x].Some?
    requires (y == lo - 1 || y == hi < |s|) && Edible(deadline, s[x].value, y)
    ensures Within(deadline, s, day, Min(lo, y), Max(hi, y + 1))
  {
    var lo', hi' := Min(lo, y), Max(hi, y + 1);
    forall z | lo' <= z < hi'
      ensures Reached(deadline, s, day, lo', hi', z)
    {
      assert Reached(deadline, s, day, lo, hi, if z == y then x else z);
      var p :| LeadsTo(deadline, s, day, lo, hi, if z == y then x else z, p);
      if z == y {
        LeadsOn(deadline, s, day, lo, hi, x, y, p);
      } else {
        assert LeadsTo(deadline, s, day, lo', hi', z, p);
      }
    }
  }

  lemma ReachedIsEaten(deadline: seq<int>, supply: seq<nat>, s: Schedule, day: nat, lo: nat, hi: nat, x: nat)
    requires |supply| == |deadline| && Feasible(deadline, supply, 0, s) && x < |s|
    requires forall t :: Best(deadline, supply, t, Eaten(s)) ==> !Fasts(t, day)
    requires Reached(deadline, s, day, lo, hi, x)
    ensures s[x].Some? && Edible(deadline, s[x].value, x)
  {
    var p :| LeadsTo(deadline, s, day, lo, hi, x, p);
    if s[x] == None {
      var t := MoveMeals(deadline, supply, s, p);
    }
    assert s[x].Some? ==> Edible(deadline, s[x].value, 0 + x);
  }

  /** The stretch of days within reach of a day on which every best schedule eats. */
  lemma {:induction false} StretchOf(deadline: seq<int>, supply: seq<nat>, s: Schedule, day: nat, lo: nat, hi: nat)
    requires |supply| == |deadline| && Feasible(deadline, supply, 0, s) && lo <= day < hi <= |s|
    requires forall i :: 0 <= i < |deadline| ==> deadline[i] <= |s|
    requires forall t :: Best(deadline, supply, t, Eaten(s)) ==> !Fasts(t, day)
    requires Within(deadline, s, day, lo, hi)
    ensures Busy(deadline, supply, day)
    decreases |s| - hi + lo
  {
    forall x | lo <= x < hi
      ensures s[x].Some? && Edible(deadline, s[x].value, x)
    {
      ReachedIsEaten(deadline, supply, s, day, lo, hi, x);
    }
    if x :| lo <= x < hi && s[x].value < lo {
      StretchGrows(deadline, s, day, lo, hi, x, lo - 1);
      StretchOf(deadline, supply, s, day, lo - 1, hi);
    } else if x :| lo <= x < hi && hi < deadline[s[x].value] {
      StretchGrows(deadline, s, day, lo, hi, x, hi);
      StretchOf(deadline, supply, s, day, lo, hi + 1);
    } else {
      assert Fills(deadline, s, lo, hi);
    }
  }

  lemma NeededDayIsBusy(deadline: seq<int>, supply: seq<nat>, s: Schedule, day: nat)
    requires |supply| == |deadline| && Feasible(deadline, supply, 0, s)
    requires forall t :: Best(deadline, supply, t, Eaten(s)) ==> !Fasts(t, day)
    ensures Busy(deadline, supply, day)
  {
    var t := Lengthened(deadline, supply, s, Max(Horizon(deadline), day + 1));
    var p: seq<nat> := [day];
    assert LeadsTo(deadline, t, day, day, day + 1, day, p);
    StretchOf(deadline, supply, t, day, day, day + 1);
  }

  // ---------- Doing without rotten meals ----------

  ghost function Splice(s: Schedule, w: Schedule, lo: nat, hi: nat): Schedule
    requires lo <= hi <= |s| && hi <= |w|
  {
    s[..lo] + w[lo..hi] + s[hi..]
  }

  lemma SpliceParts(s: Schedule, w: Schedule, lo: nat, hi: nat)
    requires lo <= hi <= |s| && hi <= |w|
    ensures var t := Splice(s, w, lo, hi);
      && Eaten(t) == Eaten(s) - Eaten(s[lo..hi]) + Eaten(w[lo..hi])
      && forall lot: nat :: Uses(t, lot) == Uses(s[..lo], lot) + Uses(w[lo..hi], lot) + Uses(s[hi..], lot)
  {
    var t := Splice(s, w, lo, hi);
    assert t[..lo] == s[..lo] && t[lo..hi] == w[lo..hi] && t[hi..] == s[hi..];
    Stretches(s, lo, hi);
    Stretches(t, lo, hi);
  }

  lemma SpliceIsEdible(days: seq<int>, supply: seq<nat>, s: Schedule, w: Schedule, lo: nat, hi: nat)
    requires |supply| == |days| && lo <= hi <= |s| && hi <= |w|
    requires Feasible(HeapDeadlines(days), supply, 0, s) && Feasible(Deadlines(days), supply, 0, w)
    ensures var t := Splice(s, w, lo, hi);
      forall k :: 0 <= k < |t| && t[k].Some? ==> Edible(HeapDeadlines(days), t[k].value, 0 + k)
  {
    SoundIsHeapFeasible(days, supply, w);
    var t := Splice(s, w, lo, hi);
    forall k | 0 <= k < |t| && t[k].Some?
      ensures Edible(HeapDeadlines(days), t[k].value, 0 + k)
    {
      assert t[k] == if lo <= k < hi then w[k] else s[k];
    }
  }

  /** Within a stretch that can be filled by its own lots, do that. */
  lemma SpliceIsFeasible(days: seq<int>, supply: seq<nat>, s: Schedule, w: Schedule, lo: nat, hi: nat)
    requires |supply| == |days| && Feasible(HeapDeadlines(days), supply, 0, s) && lo <= hi <= |s|
    requires Feasible(Deadlines(days), supply, 0, w) && Fills(Deadlines(days), w, lo, hi)
    ensures Feasible(HeapDeadlines(days), supply, 0, Splice(s, w, lo, hi)) && Eaten(s) <= Eaten(Splice(s, w, lo, hi))
  {
    SpliceParts(s, w, lo, hi);
    EatenInDays(s[lo..hi]);
    EatenInDays(w[lo..hi]);
    SpliceIsEdible(days, supply, s, w, lo, hi);
    forall lot | 0 <= lot < |supply|
      ensures Uses(Splice(s, w, lo, hi), lot) <= supply[lot]
    {
      SpliceSupply(days, supply, s, w, lo, hi, lot);
    }
  }

  lemma SpliceSupply(days: seq<int>, supply: seq<nat>, s: Schedule, w: Schedule, lo: nat, hi: nat, lot: nat)
    requires |supply| == |days| && Feasible(HeapDeadlines(days), supply, 0, s) && lo <= hi <= |s|
    requires Feasible(Deadlines(days), supply, 0, w) && Fills(Deadlines(days), w, lo, hi) && lot < |supply|
    ensures Uses(s[..lo], lot) + Uses(w[lo..hi], lot) + Uses(s[hi..], lot) <= supply[lot]
  {
    if Uses(w[lo..hi], lot) > 0 {
      OnlyWithin(days, supply, s, w, lo, hi, lot);
      Stretches(w, lo, hi);
    } else {
      Stretches(s, lo, hi);
    }
  }

  lemma OnlyWithin(days: seq<int>, supply: seq<nat>, s: Schedule, w: Schedule, lo: nat, hi: nat, lot: nat)
    requires |supply| == |days| && Feasible(HeapDeadlines(days), supply, 0, s) && lo <= hi <= |s|
    requires Feasible(Deadlines(days), supply, 0, w) && Fills(Deadlines(days), w, lo, hi)
    requires Uses(w[lo..hi], lot) > 0
    ensures Uses(s[..lo], lot) == 0 == Uses(s[hi..], lot)
  {
    var k := UsedSomewhere(w[lo..hi], lot);
    assert w[lo + k] == Some(lot) && Edible(Deadlines(days), lot, 0 + (lo + k));
    forall j | 0 <= j < |s| && s[j] == Some(lot)
      ensures lo <= j < hi
    {
      assert Edible(HeapDeadlines(days), s[j].value, 0 + j);
    }
    Unused(s[..lo], lot);
    Unused(s[hi..], lot);
  }

  /** The days on which s eats from a lot that is rotten on arrival. */
  ghost function RottenMeals(days: seq<int>, s: Schedule): set<nat> {
    set k: nat | k < |s| && s[k].Some? && s[k].value < |days| && days[s[k].value] <= 0
  }

  lemma NoRottenMeals(days: seq<int>, supply: seq<nat>, s: Schedule)
    requires |supply| == |days| && Feasible(HeapDeadlines(days), supply, 0, s) && RottenMeals(days, s) == {}
    ensures Feasible(Deadlines(days), supply, 0, s)
  {
    forall k | 0 <= k < |s| && s[k].Some?
      ensures Edible(Deadlines(days), s[k].value, 0 + k)
    {
      assert Edible(HeapDeadlines(days), s[k].value, 0 + k);
      assert k !in RottenMeals(days, s);
    }
  }

  lemma FewerRottenMeals(days: seq<int>, s: Schedule, s': Schedule, w: Schedule, lo: nat, k: nat, hi: nat)
    requires k in RottenMeals(days, s) && lo <= k < hi <= |s'| && hi <= |w| && s <= s'
    requires forall x :: |s| <= x < |s'| ==> s'[x] == None
    requires forall x :: lo <= x < hi && w[x].Some? ==> w[x].value < |days| && days[w[x].value] > 0
    ensures RottenMeals(days, Splice(s', w, lo, hi)) < RottenMeals(days, s)
  {
    var t := Splice(s', w, lo, hi);
    assert forall x :: 0 <= x < |t| ==> t[x] == if lo <= x < hi then w[x] else s'[x];
    assert k !in RottenMeals(days, t);
  }

  /** If every day on which a rotten lot arrives is busy, rotten meals can be replaced. */
  lemma {:induction false} WithoutRottenMeals(apples: seq<int>, days: seq<int>, s: Schedule) returns (t: Schedule)
    requires |apples| == |days| && Feasible(HeapDeadlines(days), Supply(apples), 0, s)
    requires forall i: nat :: RottenLot(apples, days, i) ==> Busy(Deadlines(days), Supply(apples), i)
    ensures Feasible(Deadlines(days), Supply(apples), 0, t) && Eaten(s) <= Eaten(t)
    decreases RottenMeals(days, s)
  {
    if k: nat :| k in RottenMeals(days, s) {
      assert Edible(HeapDeadlines(days), s[k].value, 0 + k);
      UsesAt(s, k);
      assert RottenLot(apples, days, k);
      var w: Schedule, lo: nat, hi: nat :|
        lo <= k < hi && Feasible(Deadlines(days), Supply(apples), 0, w) && Fills(Deadlines(days), w, lo, hi);
      var s' := Lengthened(HeapDeadlines(days), Supply(apples), s, hi);
      SpliceIsFeasible(days, Supply(apples), s', w, lo, hi);
      SoundIsHeapFeasible(days, Supply(apples), w);
      FewerRottenMeals(days, s, s', w, lo, k, hi);
      t := WithoutRottenMeals(apples, days, Splice(s', w, lo, hi));
    } else {
      t := s;
      NoRottenMeals(days, Supply(apples), s);
    }
  }

  // ---------- Exactly ----------

  /**
   The two results are equal if and only if each day on which apples arrive rotten is busy; and
   if and only if no best schedule of sound apples fasts on such a day.
   */
  lemma BothAgree(apples: seq<int>, days: seq<int>, a: int, b: int)
    requires |apples| == |days|
    requires IsMaximum(HeapDeadlines(days), Supply(apples), a) && IsMaximum(Deadlines(days), Supply(apples), b)
    ensures a == b <==> forall i: nat :: RottenLot(apples, days, i) ==> Busy(Deadlines(days), Supply(apples), i)
    ensures a == b <==>
      forall s, i: nat :: Best(Deadlines(days), Supply(apples), s, b) && RottenLot(apples, days, i) ==> !Fasts(s, i)
  {
    var heap, sound, supply := HeapDeadlines(days), Deadlines(days), Supply(apples);
    var s: Schedule :| Feasible(heap, supply, 0, s) && Eaten(s) == a;
    var t: Schedule :| Feasible(sound, supply, 0, t) && Eaten(t) == b;
    SoundIsHeapFeasible(days, supply, t);
    if a == b {
      forall u, i: nat | Best(sound, supply, u, b) && RottenLot(apples, days, i)
        ensures !Fasts(u, i)
      {
        if Fasts(u, i) {
          var more := FastingLoses(apples, days, u, i);
        }
      }
    }
    if forall u, i: nat :: Best(sound, supply, u, b) && RottenLot(apples, days, i) ==> !Fasts(u, i) {
      forall i: nat | RottenLot(apples, days, i)
        ensures Busy(sound, supply, i)
      {
        NeededDayIsBusy(sound, supply, t, i);
      }
    }
    if forall i: nat :: RottenLot(apples, days, i) ==> Busy(sound, supply, i) {
      var u := WithoutRottenMeals(apples, days, s);
    }
  }

  /** One apple that is rotten on arrival, and nothing else: the heap version eats it. */
  lemma RottenOnArrival()
    ensures IsMaximum(HeapDeadlines([0]), Supply([1]), 1) && IsMaximum(Deadlines([0]), Supply([1]), 0)
  {
    var eat: Schedule := [Some(0)];
    assert Uses(eat, 0) == 1 && Eaten(eat) == 1 && Feasible(HeapDeadlines([0]), Supply([1]), 0, eat);
    forall s: Schedule | Feasible(HeapDeadlines([0]), Supply([1]), 0, s)
      ensures Eaten(s) <= 1
    {
      OnlyLot(s);
    }
    forall s: Schedule | Feasible(Deadlines([0]), Supply([1]), 0, s)
      ensures Eaten(s) <= 0
    {
      NothingEdible(s);
    }
    assert Feasible(Deadlines([0]), Supply([1]), 0, []);
  }

  lemma {:induction false} OnlyLot(s: Schedule)
    requires forall k :: 0 <= k < |s| && s[k].Some? ==> s[k].value == 0
    ensures Eaten(s) == Uses(s, 0)
  {
    if s != [] {
      OnlyLot(s[1..]);
    }
  }

  /** With sound apples enough for both days, the rotten one makes no difference. */
  lemma RottenButNotMissed(a: int, b: int)
    requires IsMaximum(HeapDeadlines([2, 0]), Supply([2, 1]), a) && IsMaximum(Deadlines([2, 0]), Supply([2, 1]), b)
    ensures a == b
  {
    var both: Schedule := [Some(0), Some(0)];
    assert Uses(both[1..], 0) == 1 && Uses(both[1..], 1) == 0 && Uses(both, 0) == 2 && Uses(both, 1) == 0;
    assert Feasible(Deadlines([2, 0]), Supply([2, 1]), 0, both) && Fills(Deadlines([2, 0]), both, 0, 2);
    BothAgree([2, 1], [2, 0], a, b);
  }
}
