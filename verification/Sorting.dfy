/** Sorting by its library contract: the range is rearranged in place into ascending order. */
module Sorting {
  import opened Listings

  predicate Ascending(s: seq<int>) {
    forall i, j :: 0 <= i < j < |s| ==> s[i] <= s[j]
  }

  lemma WithoutContents(s: seq<int>, k: nat)
    requires k < |s|
    ensures multiset(Without(s, k)) == multiset(s) - multiset{s[k]}
  {
    assert s == s[..k] + [s[k]] + s[k + 1..];
  }

  function Position(s: seq<int>, x: int): (p: nat)
    requires Ascending(s)
    ensures p <= |s|
    ensures forall i :: 0 <= i < p ==> s[i] <= x
    ensures forall i :: p <= i < |s| ==> x <= s[i]
  {
    if s == [] || x <= s[|s| - 1] then
      if s == [] then 0 else Position(s[..|s| - 1], x)
    else |s|
  }

  function Insert(s: seq<int>, x: int): (r: seq<int>)
    requires Ascending(s)
    ensures Ascending(r) && |r| == |s| + 1 && multiset(r) == multiset(s) + multiset{x}
  {
    var p := Position(s, x);
    var r := s[..p] + [x] + s[p..];
    assert s == s[..p] + s[p..];
    r
  }

  function SortedCopy(s: seq<int>): (r: seq<int>)
    ensures Ascending(r) && |r| == |s| && multiset(r) == multiset(s)
  {
    if s == [] then []
    else
      assert s == [s[0]] + s[1..];
      Insert(SortedCopy(s[1..]), s[0])
  }

  method CopyInto(a: array<int>, lo: nat, r: seq<int>)
    requires lo + |r| <= a.Length
    modifies a
    ensures forall k :: 0 <= k < a.Length && !(lo <= k < lo + |r|) ==> a[k] == old(a[k])
    ensures a[lo..lo + |r|] == r
  {
    for i := 0 to |r|
      invariant forall k :: 0 <= k < a.Length && !(lo <= k < lo + i) ==> a[k] == old(a[k])
      invariant forall k :: 0 <= k < i ==> a[lo + k] == r[k]
    {
      a[lo + i] := r[i];
    }
  }

  /** Sorts a[lo..hi] and leaves the rest of the array alone. */
  method Sort(a: array<int>, lo: nat, hi: nat)
    requires lo <= hi <= a.Length
    modifies a
    ensures forall k :: 0 <= k < a.Length && !(lo <= k < hi) ==> a[k] == old(a[k])
    ensures Ascending(a[lo..hi]) && multiset(a[lo..hi]) == multiset(old(a[lo..hi]))
  {
    CopyInto(a, lo, SortedCopy(a[lo..hi]));
  }
}
