/**
 Cutting a cake into unit pieces.  Every cut goes through the whole of one piece and costs
 its line's price, whatever the size of the piece, so the order of the cuts matters.
 The price of the greedy order has a closed form, and no order is cheaper.
 */
module CakeCutting {
  import opened Wrappers
  import opened Listings
  import opened Sorting

  function Total(xs: seq<int>, f: int -> int): int {
    if xs == [] then 0 else f(xs[0]) + Total(xs[1..], f)
  }

  function Itself(): int -> int {
    (x: int) => x
  }

  function LesserOf(y: int): int -> int {
    (x: int) => Min(x, y)
  }

  /** The line x and its crossings with the lines vs, each at the lesser price. */
  function Crossings(vs: seq<int>): int -> int {
    (x: int) => Total(vs, LesserOf(x))
  }

  /** Every line once, and every crossing of a row line with a column line at the lesser of their prices. */
  function Price(hs: seq<int>, vs: seq<int>): int {
    Total(hs, Itself()) + Total(vs, Itself()) + Total(hs, Crossings(vs))
  }

  // ---------- Totals ----------

  lemma {:induction false} TotalConcat(xs: seq<int>, ys: seq<int>, f: int -> int)
    ensures Total(xs + ys, f) == Total(xs, f) + Total(ys, f)
  {
    if xs == [] {
      assert xs + ys == ys;
    } else {
      assert (xs + ys)[1..] == xs[1..] + ys;
      TotalConcat(xs[1..], ys, f);
    }
  }

  lemma TotalWithout(xs: seq<int>, k: nat, f: int -> int)
    requires k < |xs|
    ensures Total(xs, f) == Total(xs[..k], f) + f(xs[k]) + Total(xs[k + 1..], f)
  {
    assert xs == xs[..k] + xs[k..];
    TotalConcat(xs[..k], xs[k..], f);
    assert xs[k..][1..] == xs[k + 1..];
  }

  lemma {:induction false} TotalBound(xs: seq<int>, f: int -> int, g: int -> int)
    requires forall i :: 0 <= i < |xs| ==> f(xs[i]) <= g(xs[i])
    ensures Total(xs, f) <= Total(xs, g)
  {
    if xs != [] {
      TotalBound(xs[1..], f, g);
    }
  }

  /** A total does not depend on the order. */
  lemma {:induction false} TotalPermuted(xs: seq<int>, ys: seq<int>, f: int -> int)
    requires multiset(xs) == multiset(ys)
    ensures Total(xs, f) == Total(ys, f)
  {
    if xs == [] {
      assert |multiset(ys)| == 0;
    } else {
      assert xs[0] in multiset(ys);
      var k :| 0 <= k < |ys| && ys[k] == xs[0];
      WithoutContents(xs, 0);
      WithoutContents(ys, k);
      assert Without(xs, 0) == xs[1..];
      assert multiset(xs[1..]) == multiset(Without(ys, k));
      TotalPermuted(xs[1..], Without(ys, k), f);
      TotalConcat(ys[..k], ys[k + 1..], f);
      TotalWithout(ys, k, f);
    }
  }

  lemma {:induction false} CrossingsAddColumn(hs: seq<int>, v: int, vs: seq<int>)
    ensures Total(hs, Crossings([v] + vs)) == Total(hs, LesserOf(v)) + Total(hs, Crossings(vs))
  {
    if hs != [] {
      CrossingsAddColumn(hs[1..], v, vs);
      assert ([v] + vs)[1..] == vs;
    }
  }

  /** Rows and columns play the same part. */
  lemma {:induction false} PriceSymmetric(hs: seq<int>, vs: seq<int>)
    ensures Total(hs, Crossings(vs)) == Total(vs, Crossings(hs))
    ensures Price(hs, vs) == Price(vs, hs)
  {
    if vs == [] {
      NoColumns(hs);
    } else {
      assert vs == [vs[0]] + vs[1..];
      CrossingsAddColumn(hs, vs[0], vs[1..]);
      PriceSymmetric(hs, vs[1..]);
    }
  }

  lemma {:induction false} NoColumns(hs: seq<int>)
    ensures Total(hs, Crossings([])) == 0
  {
    if hs != [] {
      NoColumns(hs[1..]);
    }
  }

  // ---------- One cut ----------

  ghost predicate AtLeastAll(x: int, ys: seq<int>) {
    forall i :: 0 <= i < |ys| ==> ys[i] <= x
  }

  /** Cutting row line k first costs at least the closed form, and exactly that if no column line is dearer. */
  lemma RowCut(hs: seq<int>, vs: seq<int>, k: nat)
    requires k < |hs|
    ensures Price(hs, vs) <= Price(hs[..k], vs) + Price(hs[k + 1..], vs) + hs[k]
    ensures AtLeastAll(hs[k], vs) ==> Price(hs, vs) == Price(hs[..k], vs) + Price(hs[k + 1..], vs) + hs[k]
  {
    TotalWithout(hs, k, Itself());
    TotalWithout(hs, k, Crossings(vs));
    TotalBound(vs, LesserOf(hs[k]), Itself());
    if AtLeastAll(hs[k], vs) {
      TotalBound(vs, Itself(), LesserOf(hs[k]));
    }
  }

  lemma ColumnCut(hs: seq<int>, vs: seq<int>, k: nat)
    requires k < |vs|
    ensures Price(hs, vs) <= Price(hs, vs[..k]) + Price(hs, vs[k + 1..]) + vs[k]
    ensures AtLeastAll(vs[k], hs) ==> Price(hs, vs) == Price(hs, vs[..k]) + Price(hs, vs[k + 1..]) + vs[k]
  {
    RowCut(vs, hs, k);
    PriceSymmetric(hs, vs);
    PriceSymmetric(hs, vs[..k]);
    PriceSymmetric(hs, vs[k + 1..]);
  }

  /** Some line is at least as dear as every line that crosses it. */
  lemma {:induction false} DearestLine(xs: seq<int>) returns (k: nat)
    requires xs != []
    ensures k < |xs| && AtLeastAll(xs[k], xs)
  {
    if |xs| == 1 {
      k := 0;
    } else {
      k := DearestLine(xs[1..]);
      k := if xs[0] > xs[k + 1] then 0 else k + 1;
    }
  }

  lemma DearestCut(hs: seq<int>, vs: seq<int>) returns (row: bool, k: nat)
    requires hs != [] || vs != []
    ensures row ==> k < |hs| && AtLeastAll(hs[k], vs)
    ensures !row ==> k < |vs| && AtLeastAll(vs[k], hs)
  {
    if vs == [] {
      row, k := true, 0;
    } else if hs == [] {
      row, k := false, 0;
    } else {
      var a := DearestLine(hs);
      var b := DearestLine(vs);
      row := hs[a] >= vs[b];
      k := if row then a else b;
    }
  }

  // ---------- Every order of cuts ----------

  /** An order of cuts: where to cut the piece first, and how to go on with the two halves. */
  datatype Plan = Unit | CutRow(i: nat, upper: Plan, lower: Plan) | CutColumn(j: nat, left: Plan, right: Plan)

  /** plan cuts the piece from (top, left) to (bottom, right) into unit pieces. */
  predicate Cuts(plan: Plan, top: nat, left: nat, bottom: nat, right: nat) {
    match plan
    case Unit => top == bottom && left == right
    case CutRow(i, a, b) => top <= i < bottom && Cuts(a, top, left, i, right) && Cuts(b, i + 1, left, bottom, right)
    case CutColumn(j, a, b) => left <= j < right && Cuts(a, top, left, bottom, j) && Cuts(b, top, j + 1, bottom, right)
  }

  function Cost(plan: Plan, top: nat, left: nat, bottom: nat, right: nat, h: seq<int>, v: seq<int>): int
    requires Cuts(plan, top, left, bottom, right) && bottom <= |h| && right <= |v|
  {
    match plan
    case Unit => 0
    case CutRow(i, a, b) => Cost(a, top, left, i, right, h, v) + Cost(b, i + 1, left, bottom, right, h, v) + h[i]
    case CutColumn(j, a, b) => Cost(a, top, left, bottom, j, h, v) + Cost(b, top, j + 1, bottom, right, h, v) + v[j]
  }

  lemma Slices(s: seq<int>, lo: nat, k: nat, hi: nat)
    requires lo <= k < hi <= |s|
    ensures s[lo..hi][..k - lo] == s[lo..k] && s[lo..hi][k - lo] == s[k] && s[lo..hi][k - lo + 1..] == s[k + 1..hi]
  {
  }

  /** The closed form for the piece from (top, left) to (bottom, right). */
  function PiecePrice(top: nat, left: nat, bottom: nat, right: nat, h: seq<int>, v: seq<int>): int
    requires top <= bottom <= |h| && left <= right <= |v|
  {
    Price(h[top..bottom], v[left..right])
  }

  lemma PieceRowCut(top: nat, left: nat, bottom: nat, right: nat, h: seq<int>, v: seq<int>, i: nat)
    requires top <= i < bottom <= |h| && left <= right <= |v|
    ensures var parts := PiecePrice(top, left, i, right, h, v) + PiecePrice(i + 1, left, bottom, right, h, v) + h[i];
      && PiecePrice(top, left, bottom, right, h, v) <= parts
      && (AtLeastAll(h[i], v[left..right]) ==> PiecePrice(top, left, bottom, right, h, v) == parts)
  {
    Slices(h, top, i, bottom);
    RowCut(h[top..bottom], v[left..right], i - top);
  }

  lemma PieceColumnCut(top: nat, left: nat, bottom: nat, right: nat, h: seq<int>, v: seq<int>, j: nat)
    requires top <= bottom <= |h| && left <= j < right <= |v|
    ensures var parts := PiecePrice(top, left, bottom, j, h, v) + PiecePrice(top, j + 1, bottom, right, h, v) + v[j];
      && PiecePrice(top, left, bottom, right, h, v) <= parts
      && (AtLeastAll(v[j], h[top..bottom]) ==> PiecePrice(top, left, bottom, right, h, v) == parts)
  {
    Slices(v, left, j, right);
    ColumnCut(h[top..bottom], v[left..right], j - left);
  }

  /** In every piece larger than a unit some first cut is free of loss. */
  lemma LosslessCut(top: nat, left: nat, bottom: nat, right: nat, h: seq<int>, v: seq<int>) returns (row: bool, k: nat)
    requires top <= bottom <= |h| && left <= right <= |v| && (top < bottom || left < right)
    ensures if row then top <= k < bottom else left <= k < right
    ensures PiecePrice(top, left, bottom, right, h, v)
         == if row then PiecePrice(top, left, k, right, h, v) + PiecePrice(k + 1, left, bottom, right, h, v) + h[k]
            else PiecePrice(top, left, bottom, k, h, v) + PiecePrice(top, k + 1, bottom, right, h, v) + v[k]
  {
    row, k := DearestCut(h[top..bottom], v[left..right]);
    if row {
      k := top + k;
      PieceRowCut(top, left, bottom, right, h, v, k);
    } else {
      k := left + k;
      PieceColumnCut(top, left, bottom, right, h, v, k);
    }
  }

  lemma {:induction false} NoPlanIsCheaper(plan: Plan, top: nat, left: nat, bottom: nat, right: nat, h: seq<int>,
                                           v: seq<int>)
    requires Cuts(plan, top, left, bottom, right) && top <= bottom <= |h| && left <= right <= |v|
    ensures Cost(plan, top, left, bottom, right, h, v) >= PiecePrice(top, left, bottom, right, h, v)
  {
    match plan
    case Unit =>
    case CutRow(i, a, b) =>
      NoPlanIsCheaper(a, top, left, i, right, h, v);
      NoPlanIsCheaper(b, i + 1, left, bottom, right, h, v);
      PieceRowCut(top, left, bottom, right, h, v, i);
    case CutColumn(j, a, b) =>
      NoPlanIsCheaper(a, top, left, bottom, j, h, v);
      NoPlanIsCheaper(b, top, j + 1, bottom, right, h, v);
      PieceColumnCut(top, left, bottom, right, h, v, j);
  }

  /** Cutting the dearest line first, over and over, is a cheapest plan. */
  lemma {:induction false} CheapestPlan(top: nat, left: nat, bottom: nat, right: nat, h: seq<int>, v: seq<int>)
    returns (plan: Plan)
    requires top <= bottom <= |h| && left <= right <= |v|
    ensures Cuts(plan, top, left, bottom, right)
    ensures Cost(plan, top, left, bottom, right, h, v) == PiecePrice(top, left, bottom, right, h, v)
    decreases bottom - top + right - left
  {
    if top == bottom && left == right {
      return Unit;
    }
    var row, k := LosslessCut(top, left, bottom, right, h, v);
    if row {
      var a := CheapestPlan(top, left, k, right, h, v);
      var b := CheapestPlan(k + 1, left, bottom, right, h, v);
      plan := CutRow(k, a, b);
    } else {
      var a := CheapestPlan(top, left, bottom, k, h, v);
      var b := CheapestPlan(top, k + 1, bottom, right, h, v);
      plan := CutColumn(k, a, b);
    }
  }

  /** least is the least cost of any plan for the whole cake. */
  ghost predicate IsLeastCost(h: seq<int>, v: seq<int>, least: int) {
    && (exists plan :: Cuts(plan, 0, 0, |h|, |v|) && Cost(plan, 0, 0, |h|, |v|, h, v) == least)
    && (forall plan :: Cuts(plan, 0, 0, |h|, |v|) ==> least <= Cost(plan, 0, 0, |h|, |v|, h, v))
  }

  lemma PriceIsLeast(h: seq<int>, v: seq<int>)
    ensures IsLeastCost(h, v, Price(h, v))
  {
    assert h[0..|h|] == h && v[0..|v|] == v;
    var best := CheapestPlan(0, 0, |h|, |v|, h, v);
    forall plan | Cuts(plan, 0, 0, |h|, |v|)
      ensures Price(h, v) <= Cost(plan, 0, 0, |h|, |v|, h, v)
    {
      NoPlanIsCheaper(plan, 0, 0, |h|, |v|, h, v);
    }
  }

  // ---------- The greedy order ----------

  /** Cutting the cheapest remaining line across everything still in one piece along it. */
  lemma CheapestRowNext(hs: seq<int>, vs: seq<int>)
    requires hs != [] && forall j :: 0 <= j < |vs| ==> hs[0] <= vs[j]
    ensures Price(hs, vs) == hs[0] * (|vs| + 1) + Price(hs[1..], vs)
  {
    TotalConstant(vs, LesserOf(hs[0]), hs[0]);
  }

  lemma CheapestColumnNext(hs: seq<int>, vs: seq<int>)
    requires vs != [] && forall i :: 0 <= i < |hs| ==> vs[0] <= hs[i]
    ensures Price(hs, vs) == vs[0] * (|hs| + 1) + Price(hs, vs[1..])
  {
    PriceSymmetric(hs, vs);
    PriceSymmetric(hs, vs[1..]);
    CheapestRowNext(vs, hs);
  }

  lemma {:induction false} TotalConstant(xs: seq<int>, f: int -> int, c: int)
    requires forall i :: 0 <= i < |xs| ==> f(xs[i]) == c
    ensures Total(xs, f) == c * |xs|
  {
    if xs != [] {
      TotalConstant(xs[1..], f, c);
    }
  }

  lemma {:induction false} TotalSame(xs: seq<int>, f: int -> int, g: int -> int)
    requires forall i :: 0 <= i < |xs| ==> f(xs[i]) == g(xs[i])
    ensures Total(xs, f) == Total(xs, g)
  {
    TotalBound(xs, f, g);
    TotalBound(xs, g, f);
  }

  lemma PricePermuted(hs: seq<int>, hs': seq<int>, vs: seq<int>, vs': seq<int>)
    requires multiset(hs) == multiset(hs') && multiset(vs) == multiset(vs')
    ensures Price(hs, vs) == Price(hs', vs')
  {
    TotalPermuted(hs, hs', Itself());
    TotalPermuted(vs, vs', Itself());
    TotalPermuted(hs, hs', Crossings(vs));
    forall i | 0 <= i < |hs'|
      ensures Crossings(vs)(hs'[i]) == Crossings(vs')(hs'[i])
    {
      TotalPermuted(vs, vs', LesserOf(hs'[i]));
    }
    TotalSame(hs', Crossings(vs), Crossings(vs'));
  }

  /** The greedy order costs no more than any other; the two arrays of prices end up sorted. */
  method MinimumCost(m: nat, n: nat, h: array<int>, v: array<int>) returns (ans: int)
    requires m == h.Length + 1 && n == v.Length + 1 && h != v
    modifies h, v
    ensures ans == Price(old(h[..]), old(v[..])) && IsLeastCost(old(h[..]), old(v[..]), ans)
    ensures Ascending(h[..]) && multiset(h[..]) == multiset(old(h[..]))
    ensures Ascending(v[..]) && multiset(v[..]) == multiset(old(v[..]))
  {
    assert h[0..h.Length] == h[..] && v[0..v.Length] == v[..];
    Sort(h, 0, h.Length);
    assert v[..] == old(v[..]);
    Sort(v, 0, v.Length);
    assert h[0..h.Length] == h[..] && v[0..v.Length] == v[..];
    PricePermuted(old(h[..]), h[..], old(v[..]), v[..]);
    PriceIsLeast(old(h[..]), old(v[..]));
    ans := GreedyCost(m, n, h, v);
  }

  method GreedyCost(m: nat, n: nat, h: array<int>, v: array<int>) returns (ans: int)
    requires m == h.Length + 1 && n == v.Length + 1
    requires Ascending(h[..]) && Ascending(v[..])
    ensures ans == Price(h[..], v[..])
  {
    ans := 0;
    var i, j := 0, 0;
    while i < m - 1 || j < n - 1
      invariant i <= m - 1 && j <= n - 1
      invariant ans + Price(h[i..], v[j..]) == Price(h[..], v[..])
      decreases m - i + n - j
    {
      if j == n - 1 || (i < m - 1 && h[i] < v[j]) {
        CheapestRowNext(h[i..], v[j..]);
        assert h[i..][1..] == h[i + 1..];
        ans := ans + h[i] * (n - j);
        i := i + 1;
      } else {
        CheapestColumnNext(h[i..], v[j..]);
        assert v[j..][1..] == v[j + 1..];
        ans := ans + v[j] * (m - i);
        j := j + 1;
      }
    }
  }

  // ---------- Exhaustive search ----------

  const SENTINEL := 65535

  ghost predicate NonNegative(s: seq<int>) {
    forall i :: 0 <= i < |s| ==> s[i] >= 0
  }

  /** The cost of a plan where no piece is counted at more than the sentinel. */
  function CappedCost(plan: Plan, top: nat, left: nat, bottom: nat, right: nat, h: seq<int>, v: seq<int>): int
    requires Cuts(plan, top, left, bottom, right) && bottom <= |h| && right <= |v|
  {
    match plan
    case Unit => 0
    case CutRow(i, a, b) =>
      Min(SENTINEL, CappedCost(a, top, left, i, right, h, v) + CappedCost(b, i + 1, left, bottom, right, h, v) + h[i])
    case CutColumn(j, a, b) =>
      Min(SENTINEL, CappedCost(a, top, left, bottom, j, h, v) + CappedCost(b, top, j + 1, bottom, right, h, v) + v[j])
  }

  ghost predicate IsLeastCapped(top: nat, left: nat, bottom: nat, right: nat, h: seq<int>, v: seq<int>, least: int)
    requires bottom <= |h| && right <= |v|
  {
    && (exists plan ::
          Cuts(plan, top, left, bottom, right) && CappedCost(plan, top, left, bottom, right, h, v) == least)
    && (forall plan ::
          Cuts(plan, top, left, bottom, right) ==> least <= CappedCost(plan, top, left, bottom, right, h, v))
  }

  /** For prices that are not negative, counting pieces at the sentinel shows only when the whole exceeds it. */
  lemma {:induction false} CappedIsCost(plan: Plan, top: nat, left: nat, bottom: nat, right: nat, h: seq<int>,
                                        v: seq<int>)
    requires Cuts(plan, top, left, bottom, right) && bottom <= |h| && right <= |v| && NonNegative(h) && NonNegative(v)
    ensures Cost(plan, top, left, bottom, right, h, v) >= 0
    ensures CappedCost(plan, top, left, bottom, right, h, v)
         == Min(SENTINEL, Cost(plan, top, left, bottom, right, h, v))
  {
    match plan
    case Unit =>
    case CutRow(i, a, b) =>
      CappedIsCost(a, top, left, i, right, h, v);
      CappedIsCost(b, i + 1, left, bottom, right, h, v);
    case CutColumn(j, a, b) =>
      CappedIsCost(a, top, left, bottom, j, h, v);
      CappedIsCost(b, top, j + 1, bottom, right, h, v);
  }

  lemma RowCandidate(top: nat, left: nat, bottom: nat, right: nat, h: seq<int>, v: seq<int>, i: nat,
                     cost1: int, cost2: int) returns (best: Plan)
    requires top <= i < bottom <= |h| && right <= |v|
    requires IsLeastCapped(top, left, i, right, h, v, cost1) && IsLeastCapped(i + 1, left, bottom, right, h, v, cost2)
    ensures Cuts(best, top, left, bottom, right)
    ensures CappedCost(best, top, left, bottom, right, h, v) == Min(SENTINEL, cost1 + cost2 + h[i])
    ensures forall plan :: Cuts(plan, top, left, bottom, right) && plan.CutRow? && plan.i == i ==>
      Min(SENTINEL, cost1 + cost2 + h[i]) <= CappedCost(plan, top, left, bottom, right, h, v)
  {
    var a :| Cuts(a, top, left, i, right) && CappedCost(a, top, left, i, right, h, v) == cost1;
    var b :| Cuts(b, i + 1, left, bottom, right) && CappedCost(b, i + 1, left, bottom, right, h, v) == cost2;
    best := CutRow(i, a, b);
  }

  lemma ColumnCandidate(top: nat, left: nat, bottom: nat, right: nat, h: seq<int>, v: seq<int>, j: nat,
                        cost1: int, cost2: int) returns (best: Plan)
    requires left <= j < right <= |v| && bottom <= |h|
    requires IsLeastCapped(top, left, bottom, j, h, v, cost1) && IsLeastCapped(top, j + 1, bottom, right, h, v, cost2)
    ensures Cuts(best, top, left, bottom, right)
    ensures CappedCost(best, top, left, bottom, right, h, v) == Min(SENTINEL, cost1 + cost2 + v[j])
    ensures forall plan :: Cuts(plan, top, left, bottom, right) && plan.CutColumn? && plan.j == j ==>
      Min(SENTINEL, cost1 + cost2 + v[j]) <= CappedCost(plan, top, left, bottom, right, h, v)
  {
    var a :| Cuts(a, top, left, bottom, j) && CappedCost(a, top, left, bottom, j, h, v) == cost1;
    var b :| Cuts(b, top, j + 1, bottom, right) && CappedCost(b, top, j + 1, bottom, right, h, v) == cost2;
    best := CutColumn(j, a, b);
  }

  /** res is what the best of the plans tried so far costs, or still the sentinel if none has been tried. */
  ghost predicate BestSoFar(top: nat, left: nat, bottom: nat, right: nat, h: seq<int>, v: seq<int>,
                            rows: nat, columns: nat, res: int)
    requires bottom <= |h| && right <= |v|
  {
    && res <= SENTINEL
    && (if rows == top && columns == left then res == SENTINEL
        else exists plan ::
          Cuts(plan, top, left, bottom, right) && CappedCost(plan, top, left, bottom, right, h, v) == res)
    && (forall plan :: Cuts(plan, top, left, bottom, right) && Tried(plan, rows, columns) ==>
          res <= CappedCost(plan, top, left, bottom, right, h, v))
  }

  predicate Tried(plan: Plan, rows: nat, columns: nat) {
    (plan.CutRow? && plan.i < rows) || (plan.CutColumn? && plan.j < columns)
  }

  /** The recursion over all first cuts finds the least cost, with every piece counted at most at the sentinel. */
  method Dfs(top: nat, left: nat, bottom: nat, right: nat, h: seq<int>, v: seq<int>) returns (res: int)
    requires top <= bottom <= |h| && left <= right <= |v|
    ensures IsLeastCapped(top, left, bottom, right, h, v, res)
    decreases bottom - top + right - left
  {
    if top == bottom && left == right {
      assert Cuts(Unit, top, left, bottom, right);
      return 0;
    }
    res := SENTINEL;
    for i := top to bottom
      invariant BestSoFar(top, left, bottom, right, h, v, i, left, res)
    {
      var cost1 := Dfs(top, left, i, right, h, v);
      var cost2 := Dfs(i + 1, left, bottom, right, h, v);
      ghost var plan := RowCandidate(top, left, bottom, right, h, v, i, cost1, cost2);
      res := Min(res, cost1 + cost2 + h[i]);
    }
    for j := left to right
      invariant BestSoFar(top, left, bottom, right, h, v, bottom, j, res)
    {
      var cost1 := Dfs(top, left, bottom, j, h, v);
      var cost2 := Dfs(top, j + 1, bottom, right, h, v);
      ghost var plan := ColumnCandidate(top, left, bottom, right, h, v, j, cost1, cost2);
      res := Min(res, cost1 + cost2 + v[j]);
    }
  }

  /** minimumCost_my: for prices that are not negative, equal to the greedy cost unless that exceeds the sentinel. */
  method MinimumCostMy(m: nat, n: nat, h: seq<int>, v: seq<int>) returns (ans: int)
    requires m == |h| + 1 && n == |v| + 1
    ensures IsLeastCapped(0, 0, |h|, |v|, h, v, ans)
    ensures NonNegative(h) && NonNegative(v) ==> ans == if Price(h, v) < 65535 then Price(h, v) else 65535
    ensures NonNegative(h) && NonNegative(v) ==> (IsLeastCost(h, v, ans) <==> Price(h, v) <= 65535)
  {
    ans := Dfs(0, 0, m - 1, n - 1, h, v);
    if NonNegative(h) && NonNegative(v) {
      LeastCappedIsPrice(h, v, ans);
    }
  }

  lemma LeastCappedIsPrice(h: seq<int>, v: seq<int>, least: int)
    requires NonNegative(h) && NonNegative(v) && IsLeastCapped(0, 0, |h|, |v|, h, v, least)
    ensures least == Min(SENTINEL, Price(h, v)) && (IsLeastCost(h, v, least) <==> Price(h, v) <= SENTINEL)
  {
    PriceIsLeast(h, v);
    var plan :| Cuts(plan, 0, 0, |h|, |v|) && CappedCost(plan, 0, 0, |h|, |v|, h, v) == least;
    var best :| Cuts(best, 0, 0, |h|, |v|) && Cost(best, 0, 0, |h|, |v|, h, v) == Price(h, v);
    CappedIsCost(plan, 0, 0, |h|, |v|, h, v);
    CappedIsCost(best, 0, 0, |h|, |v|, h, v);
  }

  /** One line dearer than the sentinel: the recursion says 65535, the greedy method 65536. */
  lemma SentinelIsTooLow(ans: int)
    requires IsLeastCapped(0, 0, 1, 0, [65536], [], ans)
    ensures ans == 65535 && IsLeastCost([65536], [], 65536)
  {
    LeastCappedIsPrice([65536], [], ans);
    PriceIsLeast([65536], []);
  }

  /** With a negative price it can fall below the least cost: part of a loss is cut off, the gain counts in full. */
  lemma NegativePricesGainTooMuch(h: seq<int>, ans: int)
    requires h == [65536, -1] && IsLeastCapped(0, 0, 2, 0, h, [], ans)
    ensures ans < 65535 && IsLeastCost(h, [], 65535)
  {
    NoColumns(h);
    assert Total(h[1..], Itself()) == -1;
    PriceIsLeast(h, []);
    var lossFirst := CutRow(0, Unit, Unit);
    assert CappedCost(lossFirst, 0, 0, 1, 0, h, []) == SENTINEL;
    assert CappedCost(CutRow(1, lossFirst, Unit), 0, 0, 2, 0, h, []) == SENTINEL - 1;
  }
}
