/**
 Seating students as far from each other as possible.  The room keeps a priority queue of
 gaps between neighbours in which outdated gaps are left until they surface.
 */
module ExamRoom {
  import opened PriorityQueue

  /** A pair of seats that are, or once were, neighbouring occupied seats. */
  datatype Gap = Gap(left: nat, right: nat)

  function Abs(x: int): nat {
    if x < 0 then -x else x
  }

  ghost predicate IsNearest(seats: set<nat>, x: nat, d: nat) {
    && (exists s :: s in seats && Abs(s - x) == d)
    && (forall s :: s in seats ==> d <= Abs(s - x))
  }

  lemma {:induction false} SomeNearest(seats: set<nat>, x: nat)
    requires seats != {}
    ensures exists d: nat :: IsNearest(seats, x, d)
    decreases |seats|
  {
    var s :| s in seats;
    var rest := seats - {s};
    assert forall t :: t in seats ==> t == s || t in rest;
    if rest == {} {
      assert IsNearest(seats, x, Abs(s - x));
    } else {
      SomeNearest(rest, x);
      var other: nat :| IsNearest(rest, x, other);
      assert IsNearest(seats, x, if other < Abs(s - x) then other else Abs(s - x));
    }
  }

  /** Distance from seat x to the nearest student. */
  ghost function Nearest(seats: set<nat>, x: nat): nat
    requires seats != {}
  {
    SomeNearest(seats, x);
    var d: nat :| IsNearest(seats, x, d);
    d
  }

  lemma NearestIs(seats: set<nat>, x: nat)
    requires seats != {}
    ensures IsNearest(seats, x, Nearest(seats, x))
  {
    SomeNearest(seats, x);
  }

  predicate Neighbours(seats: set<nat>, a: nat, b: nat) {
    a in seats && b in seats && a < b && forall x | x in seats :: !(a < x < b)
  }

  ghost predicate Free(n: nat, seats: set<nat>, x: nat) {
    x < n && x !in seats
  }

  ghost predicate Full(n: nat, seats: set<nat>) {
    forall x: nat :: x < n ==> x in seats
  }

  /** The seat farthest from every student, the smallest one if there are several; seat 0 in an empty room. */
  ghost predicate BestSeat(n: nat, seats: set<nat>, r: nat) {
    && Free(n, seats, r)
    && if seats == {} then r == 0
       else forall x: nat :: Free(n, seats, x) ==>
              Nearest(seats, x) < Nearest(seats, r) || (Nearest(seats, x) == Nearest(seats, r) && r <= x)
  }

  /** p1 has lower priority: its middle seat is nearer to its ends, or as near but further right. */
  predicate Comp(p1: Gap, p2: Gap) {
    var d1, d2 := p1.right - p1.left, p2.right - p2.left;
    d1 / 2 < d2 / 2 || (d1 / 2 == d2 / 2 && p1.left > p2.left)
  }

  ghost predicate AllGapsQueued(seats: set<nat>, pq: multiset<Gap>) {
    forall a: nat, b: nat :: Neighbours(seats, a, b) ==> Gap(a, b) in pq
  }

  /** Gaps run from left to right; only a full room can have queued an empty one, at seat 0. */
  ghost predicate GapsOrdered(pq: multiset<Gap>) {
    forall g :: g in pq ==> g.left < g.right || g == Gap(0, 0)
  }

  ghost predicate IsFirst(seats: set<nat>, x: nat) {
    x in seats && forall s :: s in seats ==> x <= s
  }

  ghost predicate IsLast(seats: set<nat>, x: nat) {
    x in seats && forall s :: s in seats ==> s <= x
  }

  // ---------- Distances ----------

  /** In a gap the nearest student is one of its two ends. */
  lemma NearestInGap(seats: set<nat>, a: nat, b: nat, x: nat)
    requires Neighbours(seats, a, b) && a < x < b
    ensures Nearest(seats, x) == if x - a < b - x then x - a else b - x
  {
    NearestIs(seats, x);
    var s :| s in seats && Abs(s - x) == Nearest(seats, x);
  }

  lemma NearestLeftOf(seats: set<nat>, first: nat, x: nat)
    requires IsFirst(seats, first) && x <= first
    ensures Nearest(seats, x) == first - x
  {
    NearestIs(seats, x);
    var s :| s in seats && Abs(s - x) == Nearest(seats, x);
  }

  lemma NearestRightOf(seats: set<nat>, last: nat, x: nat)
    requires IsLast(seats, last) && last <= x
    ensures Nearest(seats, x) == x - last
  {
    NearestIs(seats, x);
    var s :| s in seats && Abs(s - x) == Nearest(seats, x);
  }

  lemma {:induction false} FirstOf(seats: set<nat>) returns (first: nat)
    requires seats != {}
    ensures IsFirst(seats, first)
    decreases |seats|
  {
    var x :| x in seats;
    var rest := seats - {x};
    assert forall s :: s in seats ==> s == x || s in rest;
    first := x;
    if rest != {} {
      var other := FirstOf(rest);
      first := if other < x then other else x;
    }
  }

  lemma {:induction false} LastOf(seats: set<nat>) returns (last: nat)
    requires seats != {}
    ensures IsLast(seats, last)
    decreases |seats|
  {
    var x :| x in seats;
    var rest := seats - {x};
    assert forall s :: s in seats ==> s == x || s in rest;
    last := x;
    if rest != {} {
      var other := LastOf(rest);
      last := if x < other then other else x;
    }
  }

  /** A free seat between the first and the last student lies in a gap. */
  lemma GapAround(seats: set<nat>, first: nat, last: nat, x: nat) returns (a: nat, b: nat)
    requires IsFirst(seats, first) && IsLast(seats, last) && first < x < last && x !in seats
    ensures Neighbours(seats, a, b) && a < x < b
  {
    var below, above := set s | s in seats && s < x, set s | s in seats && x < s;
    assert first in below && last in above;
    a := LastOf(below);
    b := FirstOf(above);
    forall s | s in seats
      ensures !(a < s < b)
    {
      assert s in below || s in above;
    }
  }

  /** Where a free seat can be, and how far it is from the nearest student. */
  lemma FreeSeat(seats: set<nat>, first: nat, last: nat, x: nat) returns (a: nat, b: nat)
    requires IsFirst(seats, first) && IsLast(seats, last) && x !in seats
    ensures x < first ==> Nearest(seats, x) == first - x
    ensures last < x ==> Nearest(seats, x) == x - last
    ensures first <= x <= last ==> Neighbours(seats, a, b) && a < x < b
                                   && Nearest(seats, x) == if x - a < b - x then x - a else b - x
  {
    a, b := 0, 0;
    if x < first {
      NearestLeftOf(seats, first, x);
    } else if last < x {
      NearestRightOf(seats, last, x);
    } else {
      a, b := GapAround(seats, first, last, x);
      NearestInGap(seats, a, b, x);
    }
  }

  // ---------- The three choices ----------

  ghost predicate GapsUpTo(seats: set<nat>, half: int, from: int) {
    forall a: nat, b: nat :: Neighbours(seats, a, b) ==> (b - a) / 2 < half || ((b - a) / 2 == half && from <= a)
  }

  ghost predicate GapsBelow(seats: set<nat>, bound: int) {
    forall a: nat, b: nat :: Neighbours(seats, a, b) ==> (b - a) / 2 < bound
  }

  lemma NoGapBeatsEnds(seats: set<nat>, d: int, from: int, left: int, right: int)
    requires GapsUpTo(seats, d / 2, from) && (d / 2 < right || d / 2 <= left)
    ensures GapsBelow(seats, if right > left then right else left + 1)
  {
  }

  /** The middle of the best gap, if it beats both ends of the row. */
  lemma MiddleIsBest(n: nat, seats: set<nat>, first: nat, last: nat, a: nat, b: nat)
    requires IsFirst(seats, first) && IsLast(seats, last) && last < n
    requires Neighbours(seats, a, b) && GapsUpTo(seats, (b - a) / 2, a)
    requires (b - a) / 2 >= n - 1 - last && (b - a) / 2 > first
    ensures BestSeat(n, seats, a + (b - a) / 2) && a < a + (b - a) / 2 < b
  {
    var r := a + (b - a) / 2;
    NearestInGap(seats, a, b, r);
    forall x: nat | Free(n, seats, x)
      ensures Nearest(seats, x) < Nearest(seats, r) || (Nearest(seats, x) == Nearest(seats, r) && r <= x)
    {
      var p, q := FreeSeat(seats, first, last, x);
      if first <= x <= last && p > a {
        assert !(p < b);
      }
    }
  }

  /** The last seat of the row, if it beats the first one and every gap. */
  lemma RightEndIsBest(n: nat, seats: set<nat>, first: nat, last: nat)
    requires IsFirst(seats, first) && IsLast(seats, last) && last < n
    requires n - 1 - last > first && GapsBelow(seats, n - 1 - last)
    ensures BestSeat(n, seats, n - 1)
  {
    NearestRightOf(seats, last, n - 1);
    forall x: nat | Free(n, seats, x)
      ensures Nearest(seats, x) < Nearest(seats, n - 1) || (Nearest(seats, x) == Nearest(seats, n - 1) && n - 1 <= x)
    {
      var p, q := FreeSeat(seats, first, last, x);
    }
  }

  /** The first seat of the row, if no other choice beats it: in a room that is not full it is free. */
  lemma LeftEndIsBest(n: nat, seats: set<nat>, first: nat, last: nat)
    requires IsFirst(seats, first) && IsLast(seats, last) && last < n
    requires n - 1 - last <= first && GapsBelow(seats, first + 1)
    ensures if Full(n, seats) then first == 0 else BestSeat(n, seats, 0)
  {
    if Full(n, seats) {
      assert 0 in seats;
    } else {
      NearestLeftOf(seats, first, 0);
      forall x: nat | Free(n, seats, x)
        ensures first > 0 && Nearest(seats, x) <= Nearest(seats, 0)
      {
        var p, q := FreeSeat(seats, first, last, x);
      }
      var x: nat :| x < n && x !in seats;
      assert Free(n, seats, x);
    }
  }

  // ---------- The queue of gaps ----------

  function ByPriority(): (Gap, Gap) -> bool {
    (p1, p2) => Comp(p1, p2)
  }

  lemma SomeGap(seats: set<nat>, pq: multiset<Gap>)
    requires |seats| >= 2 && AllGapsQueued(seats, pq)
    ensures pq != multiset{}
  {
    var first := FirstOf(seats);
    var rest := seats - {first};
    assert |rest| == |seats| - 1;
    var next := FirstOf(rest);
    assert forall s :: s in seats ==> s == first || s in rest;
    assert Neighbours(seats, first, next);
    assert Gap(first, next) in pq;
  }

  lemma OneStudent(seats: set<nat>, first: nat)
    requires |seats| < 2 && first in seats
    ensures forall bound :: GapsBelow(seats, bound)
  {
    var rest := seats - {first};
    assert |rest| == |seats| - 1;
    assert forall s :: s in seats ==> s == first || s in rest;
  }

  lemma TopIsBestGap(seats: set<nat>, pq: multiset<Gap>, p: Gap)
    requires AllGapsQueued(seats, pq) && IsTop(pq, ByPriority(), p)
    ensures GapsUpTo(seats, (p.right - p.left) / 2, p.left)
  {
    forall a: nat, b: nat | Neighbours(seats, a, b)
      ensures !Comp(p, Gap(a, b))
    {
      assert Gap(a, b) in pq;
    }
  }

  lemma DropOutdated(seats: set<nat>, pq: multiset<Gap>, p: Gap)
    requires AllGapsQueued(seats, pq) && !Neighbours(seats, p.left, p.right)
    ensures AllGapsQueued(seats, pq - multiset{p})
  {
  }

  lemma SplitGap(seats: set<nat>, pq: multiset<Gap>, a: nat, b: nat, x: nat)
    requires AllGapsQueued(seats, pq) && Neighbours(seats, a, b) && a < x < b
    ensures AllGapsQueued(seats + {x}, pq - multiset{Gap(a, b)} + multiset{Gap(a, x)} + multiset{Gap(x, b)})
  {
    forall c: nat, d: nat | Neighbours(seats + {x}, c, d)
      ensures Gap(c, d) in pq - multiset{Gap(a, b)} + multiset{Gap(a, x)} + multiset{Gap(x, b)}
    {
      assert a in seats + {x} && b in seats + {x} && x in seats + {x};
      if c != x && d != x {
        assert Neighbours(seats, c, d);
      }
    }
  }

  lemma ExtendRight(seats: set<nat>, pq: multiset<Gap>, last: nat, x: nat)
    requires AllGapsQueued(seats, pq) && IsLast(seats, last) && last < x
    ensures AllGapsQueued(seats + {x}, pq + multiset{Gap(last, x)})
  {
    forall c: nat, d: nat | Neighbours(seats + {x}, c, d)
      ensures Gap(c, d) in pq + multiset{Gap(last, x)}
    {
      assert last in seats + {x};
      if d != x {
        assert Neighbours(seats, c, d);
      }
    }
  }

  lemma ExtendLeft(seats: set<nat>, pq: multiset<Gap>, first: nat)
    requires AllGapsQueued(seats, pq) && IsFirst(seats, first)
    ensures AllGapsQueued(seats + {0}, pq + multiset{Gap(0, first)})
  {
    forall c: nat, d: nat | Neighbours(seats + {0}, c, d)
      ensures Gap(c, d) in pq + multiset{Gap(0, first)}
    {
      assert first in seats + {0};
      if c in seats {
        assert Neighbours(seats, c, d);
      }
    }
  }

  lemma CloseGap(seats: set<nat>, pq: multiset<Gap>, before: nat, p: nat, after: nat)
    requires AllGapsQueued(seats, pq) && Neighbours(seats, before, p) && Neighbours(seats, p, after)
    ensures AllGapsQueued(seats - {p}, pq + multiset{Gap(before, after)})
  {
    forall c: nat, d: nat | Neighbours(seats - {p}, c, d)
      ensures Gap(c, d) in pq + multiset{Gap(before, after)}
    {
      assert before in seats - {p} && after in seats - {p};
      if !(c < p < d) {
        StillNeighbours(seats, p, c, d);
      }
    }
  }

  lemma ShrinkEnd(seats: set<nat>, pq: multiset<Gap>, p: nat)
    requires AllGapsQueued(seats, pq) && (IsFirst(seats, p) || IsLast(seats, p))
    ensures AllGapsQueued(seats - {p}, pq)
  {
    forall c: nat, d: nat | Neighbours(seats - {p}, c, d)
      ensures Gap(c, d) in pq
    {
      StillNeighbours(seats, p, c, d);
    }
  }

  lemma StillNeighbours(seats: set<nat>, p: nat, c: nat, d: nat)
    requires Neighbours(seats - {p}, c, d) && !(p in seats && c < p < d)
    ensures Neighbours(seats, c, d)
  {
    forall x | x in seats
      ensures !(c < x < d)
    {
      assert x == p || x in seats - {p};
    }
  }

  // ---------- The room ----------

  class ExamRoom {
    const n: nat
    var seats: set<nat>
    var pq: multiset<Gap>

    /** Every gap between neighbours is in the queue, whatever outdated gaps are there besides. */
    ghost predicate Valid()
      reads this
    {
      n > 0 && (forall s :: s in seats ==> s < n) && AllGapsQueued(seats, pq) && GapsOrdered(pq)
    }

    constructor (n: nat)
      requires n > 0
      ensures Valid() && this.n == n && seats == {}
    {
      this.n := n;
      seats, pq := {}, multiset{};
    }

    method FirstSeat() returns (x: nat)
      requires seats != {}
      ensures IsFirst(seats, x)
    {
      x :| x in seats;
      var rest := seats;
      while rest != {}
        invariant x in seats
        invariant forall s :: s in seats && s !in rest ==> x <= s
      {
        var s :| s in rest;
        if s < x {
          x := s;
        }
        rest := rest - {s};
      }
    }

    method LastSeat() returns (x: nat)
      requires seats != {}
      ensures IsLast(seats, x)
    {
      x :| x in seats;
      var rest := seats;
      while rest != {}
        invariant x in seats
        invariant forall s :: s in seats && s !in rest ==> s <= x
      {
        var s :| s in rest;
        if x < s {
          x := s;
        }
        rest := rest - {s};
      }
    }

    /** The top of the queue once the outdated gaps above the best current one are gone. */
    method BestGap() returns (p: Gap)
      requires Valid() && |seats| >= 2
      modifies this`pq
      ensures Valid() && p in pq && Neighbours(seats, p.left, p.right)
      ensures GapsUpTo(seats, (p.right - p.left) / 2, p.left)
    {
      SomeGap(seats, pq);
      p := Top(pq, ByPriority());
      while !Neighbours(seats, p.left, p.right)
        invariant Valid() && IsTop(pq, ByPriority(), p)
        decreases |pq|
      {
        DropOutdated(seats, pq, p);
        pq := pq - multiset{p};
        SomeGap(seats, pq);
        p := Top(pq, ByPriority());
      }
      TopIsBestGap(seats, pq, p);
    }

    /** Seats a student in the best seat.  In a full room it returns 0 and seats nobody. */
    method Seat() returns (r: nat)
      requires Valid()
      modifies this
      ensures Valid()
      ensures Full(n, old(seats)) ==> r == 0 && seats == old(seats)
      ensures !Full(n, old(seats)) ==> BestSeat(n, old(seats), r) && seats == old(seats) + {r}
    {
      if seats == {} {
        seats := {0};
        return 0;
      }
      var first := FirstSeat();
      var last := LastSeat();
      var taken := false;
      if |seats| >= 2 {
        r, taken := SeatInGap(first, last);
      } else {
        OneStudent(seats, first);
      }
      if !taken {
        r := TakeAnEnd(first, last);
      }
    }

    /** Takes the middle of the best gap unless one of the ends of the row is better. */
    method SeatInGap(first: nat, last: nat) returns (r: nat, taken: bool)
      requires Valid() && IsFirst(seats, first) && IsLast(seats, last) && |seats| >= 2
      modifies this
      ensures Valid()
      ensures taken ==> BestSeat(n, old(seats), r) && seats == old(seats) + {r}
      ensures !taken ==> seats == old(seats)
      ensures !taken ==> GapsBelow(seats, if n - 1 - last > first then n - 1 - last else first + 1)
    {
      var left, right := first, n - 1 - last;
      var p := BestGap();
      var d := p.right - p.left;
      r, taken := p.left + d / 2, !(d / 2 < right || d / 2 <= left);
      if taken {
        MiddleIsBest(n, seats, first, last, p.left, p.right);
        TakeMiddle(p, r);
      } else {
        NoGapBeatsEnds(seats, d, p.left, left, right);
      }
    }

    method TakeMiddle(p: Gap, r: nat)
      requires Valid() && Neighbours(seats, p.left, p.right) && p.left < r < p.right
      modifies this
      ensures Valid() && seats == old(seats) + {r}
    {
      SplitGap(seats, pq, p.left, p.right, r);
      pq := pq - multiset{p} + multiset{Gap(p.left, r)} + multiset{Gap(r, p.right)};
      seats := seats + {r};
    }

    /** No gap is better than both ends of the row: the right end if it is better, otherwise the left one. */
    method TakeAnEnd(first: nat, last: nat) returns (r: nat)
      requires Valid() && IsFirst(seats, first) && IsLast(seats, last)
      requires GapsBelow(seats, if n - 1 - last > first then n - 1 - last else first + 1)
      modifies this
      ensures Valid()
      ensures Full(n, old(seats)) ==> r == 0 && seats == old(seats)
      ensures !Full(n, old(seats)) ==> BestSeat(n, old(seats), r) && seats == old(seats) + {r}
    {
      var left, right := first, n - 1 - last;
      if right > left {
        RightEndIsBest(n, seats, first, last);
        TakeRightEnd(last);
        r := n - 1;
      } else {
        LeftEndIsBest(n, seats, first, last);
        TakeLeftEnd(first);
        r := 0;
      }
    }

    method TakeRightEnd(last: nat)
      requires Valid() && IsLast(seats, last) && last < n - 1
      modifies this
      ensures Valid() && seats == old(seats) + {n - 1} && n - 1 !in old(seats)
    {
      ExtendRight(seats, pq, last, n - 1);
      pq := pq + multiset{Gap(last, n - 1)};
      seats := seats + {n - 1};
    }

    method TakeLeftEnd(first: nat)
      requires Valid() && IsFirst(seats, first)
      modifies this
      ensures Valid() && seats == old(seats) + {0}
    {
      ExtendLeft(seats, pq, first);
      pq := pq + multiset{Gap(0, first)};
      seats := seats + {0};
    }

    /** A student leaves; the two gaps around the seat become one. */
    method Leave(p: nat)
      requires Valid() && p in seats
      modifies this
      ensures Valid() && seats == old(seats) - {p}
    {
      var first := FirstSeat();
      var last := LastSeat();
      if p != first && p != last {
        var before, after := Around(p);
        CloseGap(seats, pq, before, p, after);
        pq := pq + multiset{Gap(before, after)};
      } else {
        ShrinkEnd(seats, pq, p);
      }
      seats := seats - {p};
    }

    /** The neighbours of an occupied seat that is neither first nor last. */
    method Around(p: nat) returns (before: nat, after: nat)
      requires p in seats && !IsFirst(seats, p) && !IsLast(seats, p)
      ensures Neighbours(seats, before, p) && Neighbours(seats, p, after)
    {
      before :| before in seats && before < p;
      after :| after in seats && p < after;
      var rest := seats;
      while rest != {}
        invariant before in seats && before < p && after in seats && p < after
        invariant forall s :: s in seats && s !in rest ==> !(before < s < p) && !(p < s < after)
      {
        var s :| s in rest;
        if before < s < p {
          before := s;
        }
        if p < s < after {
          after := s;
        }
        rest := rest - {s};
      }
    }
  }
}
