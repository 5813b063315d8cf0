/** The least possible size of the largest bag after so many two-way splits. */
module BallBags {
  import opened Sums

  type Bags = seq<nat>

  /** The bags hold balls. */
  predicate Filled(bags: Bags) {
    forall i :: 0 <= i < |bags| ==> bags[i] >= 1
  }

  // ---------- Splitting ----------

  /** One operation takes x balls, but not all, of bag i into a new bag. */
  function Split(bags: Bags, i: nat, x: nat): Bags
    requires i < |bags| && 0 < x < bags[i]
  {
    bags[i := x] + [bags[i] - x]
  }

  /** k operations can turn bags into after. */
  ghost predicate Reaches(bags: Bags, after: Bags, k: nat)
    decreases k
  {
    if k == 0 then bags == after
    else exists i: nat, x: nat :: i < |bags| && 0 < x < bags[i] && Reaches(Split(bags, i, x), after, k - 1)
  }

  predicate NoneAbove(bags: Bags, y: int) {
    forall i :: 0 <= i < |bags| ==> bags[i] <= y
  }

  /** At most ops operations can leave every bag with no more than y balls. */
  ghost predicate Achievable(bags: Bags, ops: int, y: int) {
    exists k: nat, after: Bags :: k <= ops && Reaches(bags, after, k) && NoneAbove(after, y)
  }

  // ---------- Counting operations ----------

  /** The operations a bag of b balls needs, by the formula of the method. */
  function Need(b: nat, y: nat): nat
    requires y >= 1
  {
    if b == 0 then 0 else (b - 1) / y
  }

  function NeedFor(y: nat): nat -> nat
    requires y >= 1
  {
    b => Need(b, y)
  }

  function NeedAll(bags: Bags, y: nat): nat
    requires y >= 1
  {
    Sum(bags, NeedFor(y))
  }

  lemma QuotientBounds(n: nat, y: nat, k: nat)
    requires y >= 1
    ensures n < (k + 1) * y ==> n / y <= k
    ensures n >= k * y ==> n / y >= k
  {
    assert n == y * (n / y) + n % y;
    if n / y >= k + 1 {
      assert y * (n / y) >= y * (k + 1) by {
        assert y * (n / y - k - 1) >= 0;
      }
    }
    if n / y < k {
      assert y * (k - 1 - n / y) >= 0;
    }
  }

  /** Splitting saves at most one operation. */
  lemma SplitNeeds(x: nat, z: nat, y: nat)
    requires x >= 1 && z >= 1 && y >= 1
    ensures Need(x + z, y) <= Need(x, y) + Need(z, y) + 1
  {
    var p, q := (x - 1) / y, (z - 1) / y;
    assert x - 1 == y * p + (x - 1) % y && z - 1 == y * q + (z - 1) % y;
    assert (p + q + 1 + 1) * y == y * p + y * q + 2 * y;
    QuotientBounds(x + z - 1, y, p + q + 1);
  }

  /** Taking off y balls saves exactly one. */
  lemma TakeOffNeeds(b: nat, y: nat)
    requires b > y >= 1
    ensures Need(y, y) == 0 && Need(b, y) == Need(b - y, y) + 1
  {
    QuotientBounds(y - 1, y, 0);
    var q := (b - y - 1) / y;
    assert b - y - 1 == y * q + (b - y - 1) % y;
    assert (q + 1 + 1) * y == y * q + 2 * y && (q + 1) * y == y * q + y;
    QuotientBounds(b - 1, y, q + 1);
  }

  /** A larger limit needs no more operations. */
  lemma NeedFalls(b: nat, y: nat, w: nat)
    requires 1 <= y <= w
    ensures Need(b, w) <= Need(b, y)
  {
    if b > 0 {
      var q := (b - 1) / y;
      assert b - 1 == y * q + (b - 1) % y;
      assert (q + 1) * w == y * (q + 1) + (w - y) * (q + 1);
      assert (w - y) * (q + 1) >= 0;
      QuotientBounds(b - 1, w, q);
    }
  }

  lemma {:induction false} NeedAllFalls(bags: Bags, y: nat, w: nat)
    requires 1 <= y <= w
    ensures NeedAll(bags, w) <= NeedAll(bags, y)
  {
    if bags != [] {
      NeedAllFalls(bags[..|bags| - 1], y, w);
      NeedFalls(bags[|bags| - 1], y, w);
    }
  }

  lemma NeedAllSplit(bags: Bags, i: nat, x: nat, y: nat)
    requires i < |bags| && 0 < x < bags[i] && y >= 1
    ensures NeedAll(Split(bags, i, x), y) == NeedAll(bags, y) - Need(bags[i], y) + Need(x, y) + Need(bags[i] - x, y)
  {
    SumUpdate(bags, i, x, NeedFor(y));
    assert Split(bags, i, x)[..|bags|] == bags[i := x];
  }

  lemma NeedNothing(bags: Bags, y: nat)
    requires y >= 1 && NoneAbove(bags, y)
    ensures NeedAll(bags, y) == 0
  {
    forall i | 0 <= i < |bags|
      ensures NeedFor(y)(bags[i]) == 0
    {
      if bags[i] > 0 {
        QuotientBounds(bags[i] - 1, y, 0);
      }
    }
    SumZero(bags, NeedFor(y));
  }

  /** No run of splits is shorter than the formula says. */
  lemma {:induction false} RunsNeedThat(bags: Bags, after: Bags, k: nat, y: nat)
    requires y >= 1 && Reaches(bags, after, k) && NoneAbove(after, y)
    ensures NeedAll(bags, y) <= k
    decreases k
  {
    if k == 0 {
      NeedNothing(bags, y);
    } else {
      var i: nat, x: nat :| i < |bags| && 0 < x < bags[i] && Reaches(Split(bags, i, x), after, k - 1);
      RunsNeedThat(Split(bags, i, x), after, k - 1, y);
      NeedAllSplit(bags, i, x, y);
      SplitNeeds(x, bags[i] - x, y);
    }
  }

  /** A run of that length does it: take y balls off a bag that is too large. */
  lemma {:induction false} SomeRunDoes(bags: Bags, y: nat) returns (after: Bags)
    requires y >= 1
    ensures Reaches(bags, after, NeedAll(bags, y)) && NoneAbove(after, y)
    decreases NeedAll(bags, y)
  {
    if NoneAbove(bags, y) {
      NeedNothing(bags, y);
      after := bags;
    } else {
      var i: nat :| i < |bags| && bags[i] > y;
      NeedAllSplit(bags, i, y, y);
      TakeOffNeeds(bags[i], y);
      after := SomeRunDoes(Split(bags, i, y), y);
    }
  }

  /** The sum of the formula is the exact number of operations needed. */
  lemma AchievableIffEnough(bags: Bags, ops: int, y: nat)
    requires y >= 1
    ensures Achievable(bags, ops, y) <==> NeedAll(bags, y) <= ops
  {
    if Achievable(bags, ops, y) {
      var k: nat, after: Bags :| k <= ops && Reaches(bags, after, k) && NoneAbove(after, y);
      RunsNeedThat(bags, after, k, y);
    }
    if NeedAll(bags, y) <= ops {
      var after := SomeRunDoes(bags, y);
      assert Reaches(bags, after, NeedAll(bags, y)) && NoneAbove(after, y);
    }
  }

  // ---------- The method ----------

  /** The largest element, by the library's contract. */
  function MaxElement(s: Bags): (m: nat)
    requires s != []
    ensures m in s && NoneAbove(s, m)
  {
    if |s| == 1 then s[0]
    else
      var m := MaxElement(s[..|s| - 1]);
      if m < s[|s| - 1] then s[|s| - 1] else m
  }

  /** The operations needed to leave no bag above y. */
  method CountOperations(nums: Bags, y: nat) returns (p: int)
    requires Filled(nums) && y >= 1
    ensures p == NeedAll(nums, y)
  {
    p := 0;
    for i := 0 to |nums|
      invariant p == NeedAll(nums[..i], y)
    {
      assert nums[..i + 1][..i] == nums[..i];
      p := p + (nums[i] - 1) / y;
    }
    assert nums[..|nums|] == nums;
  }

  /** The least limit that maxOperations splits can reach. */
  method MinimumSize(nums: Bags, maxOperations: int) returns (ans: int)
    requires nums != [] && Filled(nums) && maxOperations >= 0
    ensures ans >= 1 && Achievable(nums, maxOperations, ans)
    ensures forall y :: 1 <= y < ans ==> !Achievable(nums, maxOperations, y)
  {
    var lowerBound, upBound: int := 1, MaxElement(nums);
    ghost var top := upBound;
    NeedNothing(nums, top);
    ans := 0;
    while lowerBound <= upBound
      invariant 1 <= lowerBound <= upBound + 1 <= top + 1
      invariant forall y :: 1 <= y < lowerBound ==> NeedAll(nums, y) > maxOperations
      invariant upBound < top ==> ans == upBound + 1 && NeedAll(nums, ans) <= maxOperations
      decreases upBound - lowerBound
    {
      var y := (lowerBound + upBound) / 2;
      var p := CountOperations(nums, y);
      if p <= maxOperations {
        ans := y;
        upBound := y - 1;
      } else {
        forall w | 1 <= w <= y
          ensures NeedAll(nums, w) > maxOperations
        {
          NeedAllFalls(nums, w, y);
        }
        lowerBound := y + 1;
      }
    }
    forall y | 1 <= y <= ans
      ensures Achievable(nums, maxOperations, y) <==> NeedAll(nums, y) <= maxOperations
    {
      AchievableIffEnough(nums, maxOperations, y);
    }
  }
}
