/** Counting the substrings of s that can be rearranged to begin with t, with a sliding window. */
module CoveringSubstrings {
  import opened Sums

  const LETTERS := 26

  /** The code of 'a'. */
  const A := 97

  /** A string as the codes of its characters. */
  type Text = seq<int>

  predicate IsLetter(c: int) {
    A <= c < A + LETTERS
  }

  predicate LowerCase(s: Text) {
    forall i :: 0 <= i < |s| ==> IsLetter(s[i])
  }

  // ---------- Windows ----------

  /** How often c stands in s from l up to, not including, r. */
  function Often(s: Text, l: nat, r: nat, c: int): nat
    requires l <= r <= |s|
    decreases r
  {
    if l == r then 0 else Often(s, l, r - 1, c) + if s[r - 1] == c then 1 else 0
  }

  lemma {:induction false} OftenIsMultiplicity(s: Text, l: nat, r: nat, c: int)
    requires l <= r <= |s|
    ensures Often(s, l, r, c) == multiset(s[l..r])[c]
    decreases r
  {
    if l < r {
      OftenIsMultiplicity(s, l, r - 1, c);
      assert s[l..r] == s[l..r - 1] + [s[r - 1]];
    }
  }

  lemma {:induction false} OftenFromLeft(s: Text, l: nat, r: nat, c: int)
    requires l < r <= |s|
    ensures Often(s, l, r, c) == Often(s, l + 1, r, c) + if s[l] == c then 1 else 0
    decreases r
  {
    if l + 1 < r {
      OftenFromLeft(s, l, r - 1, c);
    }
  }

  lemma {:induction false} OftenWider(s: Text, l: nat, from: nat, to: nat, r: nat, c: int)
    requires l <= from <= to <= r <= |s|
    ensures Often(s, from, to, c) <= Often(s, l, r, c)
    decreases r - to, from - l
  {
    if to < r {
      OftenWider(s, l, from, to, r - 1, c);
    } else if l < from {
      OftenWider(s, l + 1, from, to, r, c);
      OftenFromLeft(s, l, r, c);
    }
  }

  /** The window has every letter at least as often as t. */
  ghost predicate Covers(s: Text, l: nat, r: nat, t: Text)
    requires l <= r <= |s|
  {
    forall c :: IsLetter(c) ==> Often(t, 0, |t|, c) <= Often(s, l, r, c)
  }

  /** Covering means that the letters of t are among those of the substring. */
  lemma CoversIsContains(s: Text, l: nat, r: nat, t: Text)
    requires l <= r <= |s| && LowerCase(t)
    ensures Covers(s, l, r, t) <==> multiset(t) <= multiset(s[l..r])
  {
    forall c
      ensures Often(s, l, r, c) == multiset(s[l..r])[c] && Often(t, 0, |t|, c) == multiset(t)[c]
      ensures multiset(t)[c] > 0 ==> IsLetter(c)
    {
      OftenIsMultiplicity(s, l, r, c);
      OftenIsMultiplicity(t, 0, |t|, c);
      assert t[0..|t|] == t;
      assert multiset(t)[c] > 0 ==> c in t;
    }
  }

  lemma CoversMore(s: Text, t: Text, l: nat, from: nat, to: nat, r: nat)
    requires l <= from <= to <= r <= |s|
    ensures Covers(s, from, to, t) ==> Covers(s, l, r, t)
  {
    forall c
      ensures Often(s, from, to, c) <= Often(s, l, r, c)
    {
      OftenWider(s, l, from, to, r, c);
    }
  }

  lemma EmptyCoversNothing(s: Text, t: Text, l: nat)
    requires LowerCase(t) && t != [] && l <= |s|
    ensures !Covers(s, l, l, t)
  {
    assert IsLetter(t[|t| - 1]);
    assert Often(t, 0, |t|, t[|t| - 1]) > 0;
  }

  // ---------- What is counted ----------

  /** How many of the first k starts give a covering substring that ends before end. */
  ghost function Starts(s: Text, t: Text, end: nat, k: nat): nat
    requires k <= end <= |s|
  {
    if k == 0 then 0
    else Starts(s, t, end, k - 1) + if Covers(s, k - 1, end, t) then 1 else 0
  }

  /** How many covering substrings end at or before end. */
  ghost function Total(s: Text, t: Text, end: nat): nat
    requires end <= |s|
  {
    if end == 0 then 0 else Total(s, t, end - 1) + Starts(s, t, end, end)
  }

  /** The first and last places of the substrings whose letters include those of t. */
  ghost function Covering(s: Text, t: Text): set<(nat, nat)> {
    set l: nat, r: nat | l <= r <= |s| && multiset(t) <= multiset(s[l..r]) :: (l, r)
  }

  ghost function CoveringTo(s: Text, t: Text, end: nat): set<(nat, nat)>
    requires end <= |s|
  {
    set l: nat, r: nat | l <= r <= end && Covers(s, l, r, t) :: (l, r)
  }

  /** Those that end at end and start before k. */
  ghost function CoveringAt(s: Text, t: Text, end: nat, k: nat): set<(nat, nat)>
    requires k <= end <= |s|
  {
    set l: nat | l < k && Covers(s, l, end, t) :: (l, end)
  }

  lemma {:induction false} StartsCount(s: Text, t: Text, end: nat, k: nat)
    requires k <= end <= |s|
    ensures Starts(s, t, end, k) == |CoveringAt(s, t, end, k)|
  {
    if k == 0 {
      assert CoveringAt(s, t, end, 0) == {};
    } else {
      StartsCount(s, t, end, k - 1);
      var more: set<(nat, nat)> := if Covers(s, k - 1, end, t) then {(k - 1, end)} else {};
      assert CoveringAt(s, t, end, k) == CoveringAt(s, t, end, k - 1) + more;
    }
  }

  lemma CoveringLast(s: Text, t: Text, end: nat)
    requires 0 < end <= |s| && !Covers(s, end, end, t)
    ensures CoveringTo(s, t, end) == CoveringTo(s, t, end - 1) + CoveringAt(s, t, end, end)
    ensures CoveringTo(s, t, end - 1) !! CoveringAt(s, t, end, end)
  {
  }

  lemma {:induction false} TotalCountsTo(s: Text, t: Text, end: nat)
    requires LowerCase(t) && t != [] && end <= |s|
    ensures Total(s, t, end) == |CoveringTo(s, t, end)|
  {
    EmptyCoversNothing(s, t, end);
    if end == 0 {
      assert CoveringTo(s, t, 0) == {};
    } else {
      TotalCountsTo(s, t, end - 1);
      StartsCount(s, t, end, end);
      CoveringLast(s, t, end);
    }
  }

  /** What is counted is the number of covering substrings. */
  lemma TotalIsNumber(s: Text, t: Text)
    requires LowerCase(t) && t != []
    ensures Total(s, t, |s|) == |CoveringTo(s, t, |s|)| == |Covering(s, t)|
  {
    TotalCountsTo(s, t, |s|);
    forall l: nat, r: nat | l <= r <= |s|
      ensures Covers(s, l, r, t) <==> multiset(t) <= multiset(s[l..r])
    {
      CoversIsContains(s, l, r, t);
    }
    assert Covering(s, t) == CoveringTo(s, t, |s|);
  }

  /** The codes are those of the lower-case letters. */
  lemma LettersAreLowerCase(c: char)
    ensures IsLetter(c as int) <==> 'a' <= c <= 'z'
  {
  }

  /** left separates the starts that cover from those that do not. */
  ghost predicate Splits(s: Text, t: Text, left: nat, end: nat) {
    && left <= end <= |s|
    && (left > 0 ==> Covers(s, left - 1, end, t))
    && !Covers(s, left, end, t)
  }

  lemma {:induction false} StartsBeforeLeft(s: Text, t: Text, left: nat, end: nat, k: nat)
    requires Splits(s, t, left, end) && k <= end
    ensures Starts(s, t, end, k) == if k <= left then k else left
  {
    if k > 0 {
      StartsBeforeLeft(s, t, left, end, k - 1);
      if k <= left {
        CoversMore(s, t, k - 1, left - 1, end, end);
      } else {
        CoversMore(s, t, left, k - 1, end, end);
      }
    }
  }

  /** One letter more on the right keeps the starts that covered. */
  lemma CoversStill(s: Text, t: Text, left: nat, end: nat)
    requires Splits(s, t, left, end) && end < |s| && left > 0
    ensures Covers(s, left - 1, end + 1, t)
  {
    CoversMore(s, t, left - 1, left - 1, end, end + 1);
  }

  /** One more character: all starts before left cover, and they are all. */
  lemma CoveringOn(s: Text, t: Text, left: nat, end: nat)
    requires LowerCase(t) && t != [] && Splits(s, t, left, end) && end > 0
    ensures |CoveringTo(s, t, end)| == |CoveringTo(s, t, end - 1)| + left
  {
    StartsBeforeLeft(s, t, left, end, end);
    TotalCountsTo(s, t, end - 1);
    TotalCountsTo(s, t, end);
  }

  // ---------- Scanning all counts ----------

  /** The array counts the letters of the window. */
  ghost predicate Counts(cnt: array<int>, s: Text, l: nat, r: nat)
    requires l <= r <= |s|
    reads cnt
  {
    cnt.Length == 128 && forall c :: IsLetter(c) ==> cnt[c] == Often(s, l, r, c)
  }

  method IsCovered(cntS: array<int>, cntT: array<int>, ghost s: Text, ghost l: nat, ghost r: nat, ghost t: Text)
    returns (b: bool)
    requires l <= r <= |s| && Counts(cntS, s, l, r) && Counts(cntT, t, 0, |t|)
    ensures b <==> Covers(s, l, r, t)
  {
    for i := A to A + LETTERS
      invariant forall c :: A <= c < i ==> Often(t, 0, |t|, c) <= Often(s, l, r, c)
    {
      assert IsLetter(i);
      if cntS[i] < cntT[i] {
        return false;
      }
    }
    return true;
  }

  method CountLetters(t: Text) returns (cnt: array<int>)
    requires LowerCase(t)
    ensures Counts(cnt, t, 0, |t|) && fresh(cnt)
  {
    cnt := new int[128](i => 0);
    for i := 0 to |t|
      invariant Counts(cnt, t, 0, i)
    {
      assert IsLetter(t[i]);
      cnt[t[i]] := cnt[t[i]] + 1;
    }
  }

  method ValidSubstringCount(s: Text, t: Text) returns (ans: int)
    requires LowerCase(s) && LowerCase(t) && t != []
    ensures ans == |Covering(s, t)|
  {
    var cntT := CountLetters(t);
    var cntS := new int[128](i => 0);
    var left: nat := 0;
    ans := 0;
    EmptyCoversNothing(s, t, 0);
    TotalCountsTo(s, t, 0);
    for right := 0 to |s|
      invariant Splits(s, t, left, right) && Counts(cntS, s, left, right) && Counts(cntT, t, 0, |t|)
      invariant ans == |CoveringTo(s, t, right)|
    {
      left := Slide(cntS, cntT, s, t, left, right);
      ans := ans + left;
    }
    TotalIsNumber(s, t);
  }

  /** One more character, and left past every start that covers. */
  method Slide(cntS: array<int>, cntT: array<int>, s: Text, ghost t: Text, left0: nat, right: nat) returns (left: nat)
    requires LowerCase(s) && LowerCase(t) && t != [] && cntS != cntT && right < |s| && Splits(s, t, left0, right)
    requires Counts(cntS, s, left0, right) && Counts(cntT, t, 0, |t|)
    modifies cntS
    ensures Splits(s, t, left, right + 1) && Counts(cntS, s, left, right + 1)
    ensures |CoveringTo(s, t, right + 1)| == |CoveringTo(s, t, right)| + left
  {
    TakeLast(cntS, s, left0, right);
    left := Advance(cntS, cntT, s, t, left0, right + 1);
    CoveringOn(s, t, left, right + 1);
  }

  /** Moves left past every start that covers. */
  method Advance(cntS: array<int>, cntT: array<int>, s: Text, ghost t: Text, left0: nat, ghost end: nat)
    returns (left: nat)
    requires LowerCase(s) && LowerCase(t) && t != [] && cntS != cntT && left0 < end <= |s|
      && Splits(s, t, left0, end - 1)
    requires Counts(cntS, s, left0, end) && Counts(cntT, t, 0, |t|)
    modifies cntS
    ensures Splits(s, t, left, end) && Counts(cntS, s, left, end)
  {
    left := left0;
    if left > 0 {
      CoversStill(s, t, left, end - 1);
    }
    var covered := IsCovered(cntS, cntT, s, left, end, t);
    while covered
      invariant left <= end && Counts(cntS, s, left, end)
      invariant covered <==> Covers(s, left, end, t)
      invariant left > 0 ==> Covers(s, left - 1, end, t)
      decreases end - left
    {
      EmptyCoversNothing(s, t, left);
      DropFirst(cntS, s, left, end);
      left := left + 1;
      covered := IsCovered(cntS, cntT, s, left, end, t);
    }
  }

  method TakeLast(cntS: array<int>, s: Text, ghost left: nat, right: nat)
    requires LowerCase(s) && left <= right < |s| && Counts(cntS, s, left, right)
    modifies cntS
    ensures Counts(cntS, s, left, right + 1)
  {
    assert IsLetter(s[right]);
    cntS[s[right]] := cntS[s[right]] + 1;
  }

  method DropFirst(cntS: array<int>, s: Text, left: nat, ghost end: nat)
    requires LowerCase(s) && left < end <= |s| && Counts(cntS, s, left, end)
    modifies cntS
    ensures Counts(cntS, s, left + 1, end)
  {
    forall c
      ensures Often(s, left, end, c) == Often(s, left + 1, end, c) + if s[left] == c then 1 else 0
    {
      OftenFromLeft(s, left, end, c);
    }
    assert IsLetter(s[left]);
    cntS[s[left]] := cntS[s[left]] - 1;
  }

  // ---------- The summary ----------

  function Short(): int -> nat {
    d => if d > 0 then 1 else 0
  }

  /** diff is how many more of each letter t has than the window. */
  ghost predicate Differs(diff: seq<int>, s: Text, l: nat, r: nat, t: Text)
    requires l <= r <= |s|
  {
    |diff| == LETTERS && forall k :: 0 <= k < LETTERS ==> diff[k] == Often(t, 0, |t|, A + k) - Often(s, l, r, A + k)
  }

  /** The number of letters the window is short of is zero exactly when it covers t. */
  lemma NothingShortIsCovered(diff: seq<int>, s: Text, l: nat, r: nat, t: Text)
    requires l <= r <= |s| && Differs(diff, s, l, r, t)
    ensures Sum(diff, Short()) == 0 <==> Covers(s, l, r, t)
  {
    if Sum(diff, Short()) == 0 {
      forall c | IsLetter(c)
        ensures Often(t, 0, |t|, c) <= Often(s, l, r, c)
      {
        SumAtLeast(diff, c - A, Short());
        assert diff[c - A] == Often(t, 0, |t|, A + (c - A)) - Often(s, l, r, A + (c - A));
      }
    }
    if Covers(s, l, r, t) {
      forall k | 0 <= k < LETTERS
        ensures diff[k] <= 0
      {
        assert IsLetter(A + k);
      }
      SumZero(diff, Short());
    }
  }

  /** One letter enters the window. */
  method TakeIn(diff: array<int>, less0: int, s: Text, ghost l: nat, r: nat, ghost t: Text) returns (less: int)
    requires l <= r < |s| && LowerCase(s) && Differs(diff[..], s, l, r, t) && less0 == Sum(diff[..], Short())
    modifies diff
    ensures Differs(diff[..], s, l, r + 1, t) && less == Sum(diff[..], Short())
  {
    less := less0;
    assert IsLetter(s[r]);
    var c := s[r] - A;
    ghost var before := diff[..];
    diff[c] := diff[c] - 1;
    if diff[c] == 0 {
      less := less - 1;
    }
    assert diff[..] == before[c := before[c] - 1];
    SumUpdate(before, c, before[c] - 1, Short());
  }

  /** The first letter leaves the window. */
  method LetGo(diff: array<int>, less0: int, s: Text, left: nat, ghost end: nat, ghost t: Text) returns (less: int)
    requires left < end <= |s| && LowerCase(s) && Differs(diff[..], s, left, end, t) && less0 == Sum(diff[..], Short())
    modifies diff
    ensures Differs(diff[..], s, left + 1, end, t) && less == Sum(diff[..], Short())
  {
    less := less0;
    assert IsLetter(s[left]);
    var outChar := s[left] - A;
    ghost var before := diff[..];
    if diff[outChar] == 0 {
      less := less + 1;
    }
    diff[outChar] := diff[outChar] + 1;
    assert diff[..] == before[outChar := before[outChar] + 1];
    SumUpdate(before, outChar, before[outChar] + 1, Short());
    forall c
      ensures Often(s, left, end, c) == Often(s, left + 1, end, c) + if s[left] == c then 1 else 0
    {
      OftenFromLeft(s, left, end, c);
    }
  }

  /** Counts t, and the letters of which the empty window is short. */
  method Prepare(s: Text, t: Text) returns (diff: array<int>, less: int)
    requires LowerCase(t)
    ensures fresh(diff) && Differs(diff[..], s, 0, 0, t) && less == Sum(diff[..], Short())
  {
    diff := new int[LETTERS](i => 0);
    for i := 0 to |t|
      invariant forall k :: 0 <= k < LETTERS ==> diff[k] == Often(t, 0, i, A + k)
    {
      assert IsLetter(t[i]);
      diff[t[i] - A] := diff[t[i] - A] + 1;
    }
    less := 0;
    for i := 0 to LETTERS
      invariant less == Sum(diff[..i], Short())
    {
      assert diff[..i + 1][..i] == diff[..i];
      if diff[i] > 0 {
        less := less + 1;
      }
    }
    assert diff[..LETTERS] == diff[..];
  }

  lemma ContainsIsLonger(a: multiset<int>, b: multiset<int>)
    ensures a <= b ==> |a| <= |b|
  {
    if a <= b {
      assert b == a + (b - a);
    }
  }

  lemma {:induction false} ShortTextNeverCovers(s: Text, t: Text, end: nat)
    requires LowerCase(t) && |s| < |t| && end <= |s|
    ensures Total(s, t, end) == 0
  {
    if end > 0 {
      ShortTextNeverCovers(s, t, end - 1);
      NoStarts(s, t, end, end);
    }
  }

  lemma {:induction false} NoStarts(s: Text, t: Text, end: nat, k: nat)
    requires LowerCase(t) && |s| < |t| && k <= end <= |s|
    ensures Starts(s, t, end, k) == 0
  {
    if k > 0 {
      NoStarts(s, t, end, k - 1);
      CoversIsContains(s, k - 1, end, t);
      ContainsIsLonger(multiset(t), multiset(s[k - 1..end]));
    }
  }

  /** The same count from the summary less, the number of letters the window is short of. */
  method ValidSubstringCountBySummary(s: Text, t: Text) returns (ans: int)
    requires LowerCase(s) && LowerCase(t) && t != []
    ensures ans == |Covering(s, t)|
  {
    if |s| < |t| {
      ShortTextNeverCovers(s, t, |s|);
      TotalIsNumber(s, t);
      return 0;
    }
    var diff, less := Prepare(s, t);
    var left: nat := 0;
    ans := 0;
    EmptyCoversNothing(s, t, 0);
    TotalCountsTo(s, t, 0);
    for right := 0 to |s|
      invariant Splits(s, t, left, right) && Differs(diff[..], s, left, right, t) && less == Sum(diff[..], Short())
      invariant ans == |CoveringTo(s, t, right)|
    {
      less := TakeIn(diff, less, s, left, right, t);
      left, less := Shift(diff, less, s, t, left, right + 1);
      CoveringOn(s, t, left, right + 1);
      ans := ans + left;
    }
    TotalIsNumber(s, t);
  }

  method Shift(diff: array<int>, less0: int, s: Text, ghost t: Text, left0: nat, ghost end: nat)
    returns (left: nat, less: int)
    requires LowerCase(s) && LowerCase(t) && t != [] && left0 < end <= |s| && Splits(s, t, left0, end - 1)
    requires Differs(diff[..], s, left0, end, t) && less0 == Sum(diff[..], Short())
    modifies diff
    ensures Splits(s, t, left, end) && Differs(diff[..], s, left, end, t) && less == Sum(diff[..], Short())
  {
    left, less := left0, less0;
    if left > 0 {
      CoversStill(s, t, left, end - 1);
    }
    NothingShortIsCovered(diff[..], s, left, end, t);
    while less == 0
      invariant left <= end && Differs(diff[..], s, left, end, t) && less == Sum(diff[..], Short())
      invariant less == 0 <==> Covers(s, left, end, t)
      invariant left > 0 ==> Covers(s, left - 1, end, t)
      decreases end - left
    {
      EmptyCoversNothing(s, t, left);
      less := LetGo(diff, less, s, left, end, t);
      left := left + 1;
      NothingShortIsCovered(diff[..], s, left, end, t);
    }
  }
}
