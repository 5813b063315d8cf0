/** The next permutation in lexicographic order, in place. */
module NextPermutation {
  import opened Sorting

  // ---------- Lexicographic order ----------

  /** a and b first differ at k, where a is smaller. */
  ghost predicate LessAt(a: seq<int>, b: seq<int>, k: nat) {
    k < |a| && k < |b| && a[..k] == b[..k] && a[k] < b[k]
  }

  ghost predicate Less(a: seq<int>, b: seq<int>) {
    exists k: nat :: LessAt(a, b, k)
  }

  ghost predicate Permutes(a: seq<int>, b: seq<int>) {
    multiset(a) == multiset(b)
  }

  /** r is the least permutation of s that is greater, or the sorted one when there is none. */
  ghost predicate IsNext(s: seq<int>, r: seq<int>) {
    && Permutes(r, s)
    && (if exists p :: Permutes(p, s) && Less(s, p)
        then Less(s, r) && forall p :: Permutes(p, s) && Less(s, p) ==> r == p || Less(r, p)
        else Ascending(r))
  }

  predicate Descending(s: seq<int>) {
    forall i, j :: 0 <= i < j < |s| ==> s[i] >= s[j]
  }

  lemma PermutesLength(a: seq<int>, b: seq<int>)
    requires Permutes(a, b)
    ensures |a| == |b|
  {
    assert |multiset(a)| == |a| && |multiset(b)| == |b|;
  }

  lemma PermutesMember(a: seq<int>, b: seq<int>, x: int)
    requires Permutes(a, b) && x in a
    ensures x in b
  {
    assert x in multiset(b);
  }

  /** What follows a common prefix is permuted too. */
  lemma PermutesRest(a: seq<int>, b: seq<int>, k: nat)
    requires Permutes(a, b) && k <= |a| && k <= |b| && a[..k] == b[..k]
    ensures Permutes(a[k..], b[k..])
  {
    assert a == a[..k] + a[k..] && b == b[..k] + b[k..];
    assert multiset(a) == multiset(a[..k]) + multiset(a[k..]);
    assert multiset(b) == multiset(b[..k]) + multiset(b[k..]);
    assert multiset(a[k..]) == multiset(a) - multiset(a[..k]);
  }

  lemma LessAfter(a: seq<int>, b: seq<int>, k: nat)
    requires k <= |a| && k <= |b| && a[..k] == b[..k] && Less(a[k..], b[k..])
    ensures Less(a, b)
  {
    var j: nat :| LessAt(a[k..], b[k..], j);
    assert a[..k + j] == a[..k] + a[k..][..j] && b[..k + j] == b[..k] + b[k..][..j];
    assert LessAt(a, b, k + j);
  }

  /** The sorted sequence is the first of its permutations. */
  lemma {:induction false} AscendingIsFirst(t: seq<int>, p: seq<int>)
    requires Ascending(t) && Permutes(p, t)
    ensures t == p || Less(t, p)
  {
    PermutesLength(p, t);
    if t != [] {
      PermutesMember(p, t, p[0]);
      assert t[0] <= p[0];
      if t[0] < p[0] {
        assert LessAt(t, p, 0);
      } else {
        PermutesRest(p, t, 1);
        AscendingIsFirst(t[1..], p[1..]);
        if Less(t[1..], p[1..]) {
          LessAfter(t, p, 1);
        } else {
          assert t == [t[0]] + t[1..] && p == [p[0]] + p[1..];
        }
      }
    }
  }

  /** No permutation of a descending sequence rises above it where they first differ. */
  lemma DescendingIsLast(t: seq<int>, p: seq<int>, k: nat)
    requires Descending(t) && Permutes(p, t) && k < |t| == |p| && p[..k] == t[..k]
    ensures p[k] <= t[k]
  {
    PermutesRest(p, t, k);
    assert p[k..][0] == p[k];
    PermutesMember(p[k..], t[k..], p[k]);
    var i :| 0 <= i < |t[k..]| && t[k..][i] == p[k];
    assert i > 0 ==> t[k + i] <= t[k];
  }

  // ---------- The successor ----------

  /** j follows the last ascent of s, or is -1 when there is none. */
  ghost predicate LastAscent(s: seq<int>, j: int) {
    if j == -1 then Descending(s)
    else 0 < j < |s| && s[j - 1] < s[j] && Descending(s[j..])
  }

  /** The pivot s[j - 1] goes up to the least greater element m behind it, and the rest is sorted. */
  ghost predicate Raised(s: seq<int>, j: int, m: int, r: seq<int>) {
    && 0 < j < |s| == |r| && Permutes(r, s)
    && r[..j - 1] == s[..j - 1] && r[j - 1] == m > s[j - 1]
    && (forall k :: j <= k < |s| && s[k] > s[j - 1] ==> m <= s[k])
    && Ascending(r[j..])
  }

  lemma RaisedIsGreater(s: seq<int>, j: int, m: int, r: seq<int>)
    requires Raised(s, j, m, r)
    ensures Less(s, r)
  {
    assert LessAt(s, r, j - 1);
  }

  lemma RaisedIsLeast(s: seq<int>, j: int, m: int, r: seq<int>, p: seq<int>)
    requires LastAscent(s, j) && Raised(s, j, m, r) && Permutes(p, s) && Less(s, p)
    ensures r == p || Less(r, p)
  {
    var k: nat :| LessAt(s, p, k);
    PermutesLength(p, s);
    if k < j - 1 {
      assert r[..k] == r[..j - 1][..k] == s[..j - 1][..k] == s[..k];
      assert r[k] == r[..j - 1][k] == s[..j - 1][k] == s[k];
      assert LessAt(r, p, k);
    } else if k == j - 1 {
      PermutesRest(p, s, k);
      assert p[k..][0] == p[k];
      PermutesMember(p[k..], s[k..], p[k]);
      var i :| 0 <= i < |s[k..]| && s[k..][i] == p[k];
      assert s[k + i] == p[k] && i > 0;
      assert m <= p[k];
      if m < p[k] {
        assert LessAt(r, p, k);
      } else {
        RestIsFirst(s, j, m, r, p);
      }
    } else {
      assert p[..j] == p[..k][..j] == s[..k][..j] == s[..j];
      PermutesRest(p, s, j);
      assert s[j..][..k - j] == s[..k][j..] && p[j..][..k - j] == p[..k][j..];
      DescendingIsLast(s[j..], p[j..], k - j);
    }
  }

  lemma RestIsFirst(s: seq<int>, j: int, m: int, r: seq<int>, p: seq<int>)
    requires Raised(s, j, m, r) && Permutes(p, s) && |p| == |s| && p[..j - 1] == s[..j - 1] && p[j - 1] == m
    ensures r == p || Less(r, p)
  {
    assert r[..j] == r[..j - 1] + [m] && p[..j] == p[..j - 1] + [m];
    PermutesRest(p, r, j);
    AscendingIsFirst(r[j..], p[j..]);
    if Less(r[j..], p[j..]) {
      LessAfter(r, p, j);
    } else {
      assert r == r[..j] + r[j..] && p == p[..j] + p[j..];
    }
  }

  lemma RaisedIsNext(s: seq<int>, j: int, m: int, r: seq<int>)
    requires LastAscent(s, j) && Raised(s, j, m, r)
    ensures IsNext(s, r)
  {
    RaisedIsGreater(s, j, m, r);
    forall p | Permutes(p, s) && Less(s, p)
      ensures r == p || Less(r, p)
    {
      RaisedIsLeast(s, j, m, r, p);
    }
  }

  lemma SortedIsNext(s: seq<int>, r: seq<int>)
    requires Descending(s) && Permutes(r, s) && Ascending(r)
    ensures IsNext(s, r)
  {
    forall p | Permutes(p, s)
      ensures !Less(s, p)
    {
      PermutesLength(p, s);
      forall k: nat | k < |s| && s[..k] == p[..k]
        ensures p[k] <= s[k]
      {
        DescendingIsLast(s, p, k);
      }
    }
  }

  // ---------- The method ----------

  method FindAscent(nums: array<int>) returns (j: int)
    ensures LastAscent(nums[..], j)
  {
    j := -1;
    var i := nums.Length - 1;
    while i > 0
      invariant -1 <= i < nums.Length && (i == -1 ==> nums.Length == 0)
      invariant i >= 0 ==> Descending(nums[i..])
      decreases i
    {
      if nums[i - 1] < nums[i] {
        assert nums[..][i..] == nums[i..];
        return i;
      }
      i := i - 1;
    }
    assert nums.Length > 0 ==> nums[..] == nums[0..];
  }

  /** The least element greater than the pivot, behind it. */
  method FindLeastGreater(nums: array<int>, j: nat) returns (minIdx: nat)
    requires 0 < j < nums.Length && nums[j - 1] < nums[j]
    ensures j <= minIdx < nums.Length && nums[minIdx] > nums[j - 1]
    ensures forall k :: j <= k < nums.Length && nums[k] > nums[j - 1] ==> nums[minIdx] <= nums[k]
  {
    minIdx := j;
    var k := j + 1;
    while k < nums.Length
      invariant j <= minIdx < k <= nums.Length && nums[minIdx] > nums[j - 1]
      invariant forall x :: j <= x < k && nums[x] > nums[j - 1] ==> nums[minIdx] <= nums[x]
    {
      if nums[k] > nums[j - 1] {
        if nums[k] < nums[minIdx] {
          minIdx := k;
        }
      }
      k := k + 1;
    }
  }

  lemma SortedTail(a: seq<int>, b: seq<int>, j: nat)
    requires j <= |a| == |b| && a[..j] == b[..j] && Permutes(a[j..], b[j..])
    ensures Permutes(a, b)
  {
    assert a == a[..j] + a[j..] && b == b[..j] + b[j..];
  }

  /** Swapping the pivot with m and sorting behind it. */
  lemma SwapRaises(s: seq<int>, j: nat, minIdx: nat, r: seq<int>)
    requires 0 < j <= minIdx < |s| == |r| && s[minIdx] > s[j - 1]
    requires forall k :: j <= k < |s| && s[k] > s[j - 1] ==> s[minIdx] <= s[k]
    requires var t := s[j - 1 := s[minIdx]][minIdx := s[j - 1]];
      r[..j] == t[..j] && Permutes(t[j..], r[j..]) && Ascending(r[j..])
    ensures Raised(s, j, s[minIdx], r)
  {
    var t := s[j - 1 := s[minIdx]][minIdx := s[j - 1]];
    assert Permutes(t, s);
    SortedTail(t, r, j);
    assert r[..j - 1] == r[..j][..j - 1] == t[..j - 1] == s[..j - 1];
    assert r[j - 1] == r[..j][j - 1] == t[j - 1];
  }

  method SwapAndSort(nums: array<int>, j: nat, minIdx: nat)
    requires 0 < j <= minIdx < nums.Length && nums[minIdx] > nums[j - 1]
    requires forall k :: j <= k < nums.Length && nums[k] > nums[j - 1] ==> nums[minIdx] <= nums[k]
    modifies nums
    ensures Raised(old(nums[..]), j, old(nums[minIdx]), nums[..])
  {
    ghost var s := nums[..];
    nums[j - 1], nums[minIdx] := nums[minIdx], nums[j - 1];
    ghost var t := nums[..];
    assert t == s[j - 1 := s[minIdx]][minIdx := s[j - 1]];
    Sort(nums, j, nums.Length);
    assert t[j..] == t[j..nums.Length] && nums[..][j..] == nums[j..nums.Length];
    SwapRaises(s, j, minIdx, nums[..]);
  }

  method NextPermutation(nums: array<int>)
    modifies nums
    ensures IsNext(old(nums[..]), nums[..])
  {
    var j := FindAscent(nums);
    ghost var s := nums[..];
    if j != -1 {
      var minIdx := FindLeastGreater(nums, j);
      SwapAndSort(nums, j, minIdx);
      RaisedIsNext(s, j, s[minIdx], nums[..]);
    } else {
      Sort(nums, 0, nums.Length);
      assert s == s[0..|s|] && nums[..] == nums[0..nums.Length];
      SortedIsNext(s, nums[..]);
    }
  }
}
