/** Rain water between bars: by running maxima, and with a descending stack. */
module RainWater {
  import opened Wrappers

  /** The highest bar from a up to, not including, b. */
  function MaxIn(h: seq<int>, a: nat, b: nat): int
    requires a < b <= |h|
  {
    if b == a + 1 then h[a] else Max(MaxIn(h, a, b - 1), h[b - 1])
  }

  /** No bar in the range is higher, and one is as high. */
  lemma {:induction false} MaxInIsHighest(h: seq<int>, a: nat, b: nat)
    requires a < b <= |h|
    ensures (forall k :: a <= k < b ==> h[k] <= MaxIn(h, a, b)) && (exists k :: a <= k < b && h[k] == MaxIn(h, a, b))
  {
    if b == a + 1 {
      assert h[a] == MaxIn(h, a, b);
    } else {
      MaxInIsHighest(h, a, b - 1);
      var k :| a <= k < b - 1 && h[k] == MaxIn(h, a, b - 1);
      assert h[if h[k] < h[b - 1] then b - 1 else k] == MaxIn(h, a, b);
    }
  }

  /** The water over position j: up to the lower of the highest bars on either side, itself included. */
  function Water(h: seq<int>, j: nat): int
    requires j < |h|
  {
    Min(MaxIn(h, 0, j + 1), MaxIn(h, j, |h|)) - h[j]
  }

  function Trapped(h: seq<int>, k: nat): int
    requires k <= |h|
  {
    if k == 0 then 0 else Trapped(h, k - 1) + Water(h, k - 1)
  }

  // ---------- Enclosed squares ----------

  /** Some bar at or before j, and some bar at or behind j, reach up to x. */
  ghost predicate Enclosed(h: seq<int>, j: nat, x: int) {
    j < |h| && (exists l :: 0 <= l <= j && x <= h[l]) && (exists r :: j <= r < |h| && x <= h[r])
  }

  ghost function Top(h: seq<int>): int {
    if h == [] then 0 else MaxIn(h, 0, |h|)
  }

  /** The unit squares above the first k bars that have a bar on either side, by position and height. */
  ghost function Squares(h: seq<int>, k: nat): set<(nat, int)>
    requires k <= |h|
  {
    set j: nat, x: int | j < k && h[j] < x <= Top(h) && Enclosed(h, j, x) :: (j, x)
  }

  /** The squares over bar j up to a height. */
  ghost function Column(h: seq<int>, j: nat, height: int): set<(nat, int)>
    requires j < |h|
  {
    set x: int | h[j] < x <= height :: (j, x)
  }

  lemma {:induction false} ColumnCount(h: seq<int>, j: nat, height: int)
    requires j < |h| && h[j] <= height
    ensures |Column(h, j, height)| == height - h[j]
    decreases height - h[j]
  {
    if height == h[j] {
      assert Column(h, j, height) == {};
    } else {
      ColumnCount(h, j, height - 1);
      assert Column(h, j, height) == Column(h, j, height - 1) + {(j, height)};
    }
  }

  lemma EnclosedIsUnderWater(h: seq<int>, j: nat, x: int)
    requires j < |h|
    ensures h[j] <= h[j] + Water(h, j) <= Top(h)
    ensures Enclosed(h, j, x) <==> x <= h[j] + Water(h, j)
  {
    MaxInIsHighest(h, 0, j + 1);
    MaxInIsHighest(h, j, |h|);
    MaxInIsHighest(h, 0, |h|);
  }

  lemma SquaresOn(h: seq<int>, k: nat)
    requires k < |h|
    ensures Squares(h, k + 1) == Squares(h, k) + Column(h, k, h[k] + Water(h, k))
    ensures Squares(h, k) !! Column(h, k, h[k] + Water(h, k))
  {
    forall x
      ensures Enclosed(h, k, x) <==> x <= h[k] + Water(h, k)
    {
      EnclosedIsUnderWater(h, k, x);
    }
    EnclosedIsUnderWater(h, k, 0);
  }

  /** The water over the first k bars is the number of enclosed squares above them. */
  lemma {:induction false} TrappedIsSquares(h: seq<int>, k: nat)
    requires k <= |h|
    ensures Trapped(h, k) == |Squares(h, k)|
  {
    if k == 0 {
      assert Squares(h, 0) == {};
    } else {
      TrappedIsSquares(h, k - 1);
      SquaresOn(h, k - 1);
      EnclosedIsUnderWater(h, k - 1, 0);
      ColumnCount(h, k - 1, h[k - 1] + Water(h, k - 1));
    }
  }

  // ---------- A prefix of the bars with a wall behind it ----------

  /** The water level over j when a wall of height v stands at i. */
  function Level(h: seq<int>, i: nat, v: int, j: nat): int
    requires j < i <= |h|
  {
    Min(MaxIn(h, 0, j + 1), Max(MaxIn(h, j, i), v))
  }

  /** The water over the first k bars when a wall of height v stands at i. */
  function Held(h: seq<int>, i: nat, v: int, k: nat): int
    requires k <= i <= |h|
  {
    if k == 0 then 0 else Held(h, i, v, k - 1) + Level(h, i, v, k - 1) - h[k - 1]
  }

  /** d for each of n positions. */
  function Rise(n: int, d: int): int
    decreases n
  {
    if n <= 0 then 0 else Rise(n - 1, d) + d
  }

  lemma {:induction false} RiseIsProduct(n: nat, d: int)
    ensures Rise(n, d) == n * d
  {
    if n > 0 {
      RiseIsProduct(n - 1, d);
    }
  }

  /** Raising the wall from v to w raises the water right of left by d, and only there. */
  lemma {:induction false} HeldRises(h: seq<int>, i: nat, v: int, w: int, left: int, d: int, k: nat)
    requires k <= i <= |h| && -1 <= left < i
    requires forall j :: 0 <= j < i ==> Level(h, i, w, j) == Level(h, i, v, j) + if j > left then d else 0
    ensures Held(h, i, w, k) == Held(h, i, v, k) + Rise(k - left - 1, d)
  {
    if k > 0 {
      HeldRises(h, i, v, w, left, d, k - 1);
    }
  }

  lemma {:induction false} HeldSame(h: seq<int>, i: nat, v: int, w: int, k: nat)
    requires k <= i <= |h|
    requires forall j :: 0 <= j < i ==> Level(h, i, w, j) == Level(h, i, v, j)
    ensures Held(h, i, w, k) == Held(h, i, v, k)
  {
    if k > 0 {
      HeldSame(h, i, v, w, k - 1);
    }
  }

  /** Bar i takes the place of the wall. */
  lemma {:induction false} WallIsBar(h: seq<int>, i: nat, k: nat)
    requires k <= i < |h|
    ensures Held(h, i + 1, h[i], k) == Held(h, i, h[i], k)
  {
    if k > 0 {
      WallIsBar(h, i, k - 1);
      assert MaxIn(h, k - 1, i + 1) == Max(MaxIn(h, k - 1, i), h[i]);
    }
  }

  lemma NextBar(h: seq<int>, i: nat)
    requires i < |h|
    ensures Held(h, i + 1, h[i], i + 1) == Held(h, i, h[i], i)
  {
    WallIsBar(h, i, i);
  }

  lemma {:induction false} HeldIsTrapped(h: seq<int>, k: nat)
    requires k <= |h| && h != []
    ensures Held(h, |h|, h[|h| - 1], k) == Trapped(h, k)
  {
    if k > 0 {
      HeldIsTrapped(h, k - 1);
    }
  }

  // ---------- The stack ----------

  /** The entry under entry a, or -1. */
  function Below(s: seq<int>, a: nat): int
    requires a <= |s|
  {
    if a == 0 then -1 else s[a - 1]
  }

  /** Entry a is the highest of the first i bars behind the entry below it. */
  ghost predicate Entry(h: seq<int>, i: nat, s: seq<int>, a: nat)
    requires i <= |h| && a < |s| && 0 <= s[a] < i
  {
    Below(s, a) < s[a] && forall k :: 0 <= k < i && Below(s, a) < k ==> h[k] <= h[s[a]]
  }

  /** The stack, bottom first: each entry is the highest bar behind the entry below it. */
  ghost predicate Descends(h: seq<int>, i: nat, s: seq<int>)
    requires i <= |h|
  {
    && (forall a :: 0 <= a < |s| ==> 0 <= s[a] < i)
    && (forall a {:trigger Entry(h, i, s, a)} :: 0 <= a < |s| ==> Entry(h, i, s, a))
  }

  /** The stack is empty or its top is left; the bars behind that are no higher than bar i. */
  ghost predicate Cleared(h: seq<int>, i: nat, s: seq<int>)
    requires i < |h|
  {
    Descends(h, i, s) && forall k :: 0 <= k < i && Below(s, |s|) < k ==> h[k] <= h[i]
  }

  /** A wall no higher than the last bar holds no more water than the bar does. */
  lemma LowWall(h: seq<int>, i: nat, v: int, w: int)
    requires i <= |h| && (i > 0 ==> v <= h[i - 1] && w <= h[i - 1])
    ensures Held(h, i, v, i) == Held(h, i, w, i)
  {
    forall j | 0 <= j < i
      ensures Level(h, i, w, j) == Level(h, i, v, j)
    {
      MaxInIsHighest(h, j, i);
    }
    HeldSame(h, i, v, w, i);
  }

  /** Over the highest bar of all, raising the wall changes nothing. */
  lemma HighWall(h: seq<int>, i: nat, top: int, w: int)
    requires 0 <= top < i <= |h| && (forall k :: 0 <= k < i ==> h[k] <= h[top]) && h[top] <= w
    ensures Held(h, i, h[top], i) == Held(h, i, w, i)
  {
    forall j | 0 <= j < i
      ensures Level(h, i, w, j) == Level(h, i, h[top], j)
    {
      MaxInIsHighest(h, 0, j + 1);
    }
    HeldSame(h, i, h[top], w, i);
  }

  /** Popping the top raises the water behind the next entry to the lower of that entry and the wall. */
  lemma PopRaises(h: seq<int>, i: nat, s: seq<int>, wall: int)
    requires i <= |h| && Descends(h, i, s) && |s| > 1 && h[s[|s| - 1]] < wall
    ensures var left, top := s[|s| - 2], s[|s| - 1];
      var w := Min(h[left], wall);
      0 <= left < i && 0 <= top < i &&
      Held(h, i, w, i) == Held(h, i, h[top], i) + (i - left - 1) * (w - h[top])
  {
    var left, top := s[|s| - 2], s[|s| - 1];
    var v, w := h[top], Min(h[left], wall);
    assert Entry(h, i, s, |s| - 1) && Entry(h, i, s, |s| - 2);
    forall j | 0 <= j < i
      ensures Level(h, i, w, j) == Level(h, i, v, j) + if j > left then w - v else 0
    {
      MaxInIsHighest(h, j, i);
      MaxInIsHighest(h, 0, j + 1);
    }
    HeldRises(h, i, v, w, left, w - v, i);
    RiseIsProduct(i - left - 1, w - v);
  }

  /** The water counted when the stack is s and the wall stands at bar i. */
  ghost function Counted(h: seq<int>, i: nat, s: seq<int>): int
    requires i < |h| && Descends(h, i, s)
  {
    Held(h, i, if s == [] then h[i] else Min(h[s[|s| - 1]], h[i]), i)
  }

  /** One pop, and what it adds. */
  lemma Popped(h: seq<int>, i: nat, s: seq<int>)
    requires i < |h| && Cleared(h, i, s) && s != [] && h[s[|s| - 1]] < h[i]
    ensures var r := s[..|s| - 1];
      && Cleared(h, i, r)
      && Counted(h, i, r) == Counted(h, i, s) + PopAdds(h, i, s)
  {
    var r := s[..|s| - 1];
    assert Entry(h, i, s, |s| - 1) && Below(s, |r|) == Below(r, |r|);
    forall a | 0 <= a < |r|
      ensures Entry(h, i, r, a)
    {
      assert Entry(h, i, s, a) && Below(r, a) == Below(s, a);
    }
    if r == [] {
      HighWall(h, i, s[|s| - 1], h[i]);
    } else {
      PopRaises(h, i, s, h[i]);
    }
  }

  /** What popping the top adds, up to the lower of the next entry and bar i. */
  function PopAdds(h: seq<int>, i: nat, s: seq<int>): int
    requires i < |h| && s != [] && forall a :: 0 <= a < |s| ==> 0 <= s[a] < |h|
  {
    if |s| == 1 then 0 else (i - s[|s| - 2] - 1) * (Min(h[s[|s| - 2]], h[i]) - h[s[|s| - 1]])
  }

  /** Bar i goes on top. */
  lemma Pushed(h: seq<int>, i: nat, s: seq<int>)
    requires i < |h| && Cleared(h, i, s) && (s != [] ==> h[i] <= h[s[|s| - 1]])
    ensures Descends(h, i + 1, s + [i])
  {
    var r, j := s + [i], i + 1;
    forall a | 0 <= a < |s|
      ensures Entry(h, j, r, a)
    {
      Increasing(h, i, s, a, |s| - 1);
      assert Entry(h, i, s, a) && Below(r, a) == Below(s, a);
    }
    assert Below(r, |s|) == Below(s, |s|);
    assert Entry(h, j, r, |s|);
  }

  lemma {:induction false} Increasing(h: seq<int>, i: nat, s: seq<int>, a: nat, b: nat)
    requires i <= |h| && Descends(h, i, s) && a <= b < |s|
    ensures h[s[b]] <= h[s[a]]
  {
    assert Entry(h, i, s, b);
    if a < b {
      Increasing(h, i, s, a, b - 1);
      assert Entry(h, i, s, b - 1);
    }
  }

  // ---------- The two methods ----------

  lemma {:induction false} MaxFromLeft(h: seq<int>, a: nat, b: nat)
    requires a + 1 < b <= |h|
    ensures MaxIn(h, a, b) == Max(h[a], MaxIn(h, a + 1, b))
  {
    if a + 2 < b {
      MaxFromLeft(h, a, b - 1);
    }
  }

  method TrapDp(height: seq<int>) returns (ans: int)
    requires height != []
    ensures ans == Trapped(height, |height|) == |Squares(height, |height|)|
  {
    TrappedIsSquares(height, |height|);
    var n := |height|;
    ans := 0;
    var leftMax := new int[n];
    var rightMax := new int[n];
    leftMax[0] := height[0];
    rightMax[n - 1] := height[n - 1];
    for i := 1 to n
      invariant forall k :: 0 <= k < i ==> leftMax[k] == MaxIn(height, 0, k + 1)
      invariant forall k :: n - i <= k < n ==> rightMax[k] == MaxIn(height, k, n)
    {
      leftMax[i] := Max(leftMax[i - 1], height[i]);
      rightMax[n - 1 - i] := Max(rightMax[n - i], height[n - 1 - i]);
      MaxFromLeft(height, n - 1 - i, n);
    }
    for i := 0 to n
      invariant ans == Trapped(height, i)
    {
      ans := ans + Min(leftMax[i], rightMax[i]) - height[i];
    }
  }

  method TrapDs(height: seq<int>) returns (ans: int)
    ensures ans == Trapped(height, |height|) == |Squares(height, |height|)|
  {
    var s: seq<int> := [];
    ans := 0;
    for i := 0 to |height|
      invariant Descends(height, i, s) && Below(s, |s|) == i - 1
      invariant ans == if i == 0 then 0 else Held(height, i, height[i - 1], i)
    {
      s, ans := PopLower(height, i, s, ans);
      Pushed(height, i, s);
      NextBar(height, i);
      s := s + [i];
    }
    if height != [] {
      HeldIsTrapped(height, |height|);
    }
    TrappedIsSquares(height, |height|);
  }

  /** Pops the entries lower than bar i and counts the water each of them leaves. */
  method PopLower(height: seq<int>, i: nat, s0: seq<int>, ans0: int) returns (s: seq<int>, ans: int)
    requires i < |height| && Descends(height, i, s0) && Below(s0, |s0|) == i - 1
    requires ans0 == if i == 0 then 0 else Held(height, i, height[i - 1], i)
    ensures Cleared(height, i, s) && (s != [] ==> height[i] <= height[s[|s| - 1]])
    ensures ans == Held(height, i, height[i], i)
  {
    s, ans := s0, ans0;
    if i > 0 {
      LowWall(height, i, height[i - 1], Min(height[i - 1], height[i]));
    }
    while s != [] && height[s[|s| - 1]] < height[i]
      invariant Cleared(height, i, s) && ans == Counted(height, i, s)
      decreases |s|
    {
      Popped(height, i, s);
      var topIdx := s[|s| - 1];
      s := s[..|s| - 1];
      if s == [] {
        break;
      }
      var leftIdx := s[|s| - 1];
      ans := ans + (i - leftIdx - 1) * (Min(height[leftIdx], height[i]) - height[topIdx]);
    }
  }
}
