/** Streets on a grid: is there a way from the upper left to the lower right cell? */
module StreetGrid {
  import opened Division
  import opened DisjointSets

  type Grid = seq<seq<int>>

  datatype Side = Left | Right | Up | Down

  datatype Cell = Cell(x: int, y: int)

  ghost predicate Rectangular(g: Grid) {
    g != [] && g[0] != [] && forall x :: 0 <= x < |g| ==> |g[x]| == |g[0]|
  }

  // ---------- Streets and walks ----------

  /** The sides on which a street of each kind is open; other numbers are not streets. */
  function Opens(num: int): set<Side> {
    if num == 1 then {Left, Right}
    else if num == 2 then {Up, Down}
    else if num == 3 then {Left, Down}
    else if num == 4 then {Right, Down}
    else if num == 5 then {Left, Up}
    else if num == 6 then {Right, Up}
    else {}
  }

  /** The streets that open to each side. */
  lemma OpensBySide(num: int)
    ensures Left in Opens(num) <==> num == 1 || num == 3 || num == 5
    ensures Right in Opens(num) <==> num == 1 || num == 4 || num == 6
    ensures Up in Opens(num) <==> num == 2 || num == 5 || num == 6
    ensures Down in Opens(num) <==> num == 2 || num == 3 || num == 4
  {
  }

  /** There is one street for every two sides. */
  lemma StreetsAreAllPairs(a: Side, b: Side)
    requires a != b
    ensures exists num :: 1 <= num <= 6 && Opens(num) == {a, b}
    ensures forall num, other :: Opens(num) == {a, b} == Opens(other) ==> num == other
  {
    var num := if a == Left || b == Left then
                 if a == Right || b == Right then 1 else if a == Down || b == Down then 3 else 5
               else if a == Right || b == Right then
                 if a == Down || b == Down then 4 else 6
               else 2;
    assert Opens(num) == {a, b};
    forall other | Opens(other) == {a, b}
      ensures num == other
    {
      OpensBySide(other);
      OpensBySide(num);
    }
  }

  function Opposite(d: Side): Side {
    match d
    case Left => Right
    case Right => Left
    case Up => Down
    case Down => Up
  }

  /** x counts rows downwards, y counts columns. */
  function Beside(c: Cell, d: Side): Cell {
    match d
    case Left => Cell(c.x, c.y - 1)
    case Right => Cell(c.x, c.y + 1)
    case Up => Cell(c.x - 1, c.y)
    case Down => Cell(c.x + 1, c.y)
  }

  ghost predicate InGrid(g: Grid, c: Cell)
    requires Rectangular(g)
  {
    0 <= c.x < |g| && 0 <= c.y < |g[0]|
  }

  /** The street in cell c and the street beside it on side d open to each other. */
  ghost predicate Open(g: Grid, c: Cell, d: Side)
    requires Rectangular(g)
  {
    && InGrid(g, c) && InGrid(g, Beside(c, d))
    && d in Opens(g[c.x][c.y])
    && Opposite(d) in Opens(g[Beside(c, d).x][Beside(c, d).y])
  }

  ghost predicate Adjacent(g: Grid, c: Cell, e: Cell)
    requires Rectangular(g)
  {
    exists d :: Open(g, c, d) && e == Beside(c, d)
  }

  lemma AdjacentBothWays(g: Grid, c: Cell, e: Cell)
    requires Rectangular(g) && Adjacent(g, c, e)
    ensures Adjacent(g, e, c)
  {
    var d :| Open(g, c, d) && e == Beside(c, d);
    assert Open(g, e, Opposite(d)) && c == Beside(e, Opposite(d));
  }

  ghost predicate Walk(g: Grid, p: seq<Cell>)
    requires Rectangular(g)
  {
    p != [] && InGrid(g, p[0]) && forall k :: 0 <= k < |p| - 1 ==> Adjacent(g, p[k], p[k + 1])
  }

  ghost predicate HasPath(g: Grid)
    requires Rectangular(g)
  {
    exists p :: Walk(g, p) && p[0] == Cell(0, 0) && p[|p| - 1] == Cell(|g| - 1, |g[0]| - 1)
  }

  // ---------- Cells as numbers ----------

  function Id(c: Cell, n: int): int {
    c.x * n + c.y
  }

  function CellOf(id: int, n: int): Cell
    requires n > 0
  {
    Cell(id / n, id % n)
  }

  lemma IdRoundTrip(c: Cell, m: int, n: int)
    requires 0 <= c.x < m && 0 <= c.y < n
    ensures 0 <= Id(c, n) < m * n && CellOf(Id(c, n), n) == c
  {
    MulBounds(c.x, n);
    MulBounds(m - 1 - c.x, n);
    assert n * (m - 1 - c.x) == m * n - n - c.x * n;
    Quotient(c.x, n, c.y);
  }

  // ---------- Links and streets ----------

  function LinkOf(c: Cell, d: Side, n: int): Link {
    Link(Id(Beside(c, d), n), Id(c, n))
  }

  /** Every link joins two streets that open to each other. */
  ghost predicate Sound(g: Grid, links: set<Link>)
    requires Rectangular(g)
  {
    forall l :: l in links ==> Adjacent(g, CellOf(l.u, |g[0]|), CellOf(l.v, |g[0]|))
  }

  ghost predicate Joined(g: Grid, links: set<Link>, c: Cell)
    requires Rectangular(g)
  {
    forall d :: Open(g, c, d) ==> LinkOf(c, d, |g[0]|) in links
  }

  lemma LinkIsSound(g: Grid, c: Cell, d: Side)
    requires Rectangular(g) && Open(g, c, d)
    ensures Sound(g, {LinkOf(c, d, |g[0]|)})
  {
    IdRoundTrip(c, |g|, |g[0]|);
    IdRoundTrip(Beside(c, d), |g|, |g[0]|);
    assert Adjacent(g, c, Beside(c, d));
    AdjacentBothWays(g, c, Beside(c, d));
  }

  lemma ChainIsWalk(g: Grid, links: set<Link>, p: seq<int>)
    requires Rectangular(g) && Sound(g, links) && Chain(p, links) && InGrid(g, CellOf(p[0], |g[0]|))
    ensures Walk(g, seq(|p|, k requires 0 <= k < |p| => CellOf(p[k], |g[0]|)))
  {
    var q := seq(|p|, k requires 0 <= k < |p| => CellOf(p[k], |g[0]|));
    forall k | 0 <= k < |q| - 1
      ensures Adjacent(g, q[k], q[k + 1])
    {
      assert Touching(links, p[k], p[k + 1]);
      if Link(p[k], p[k + 1]) !in links {
        AdjacentBothWays(g, q[k + 1], q[k]);
      }
    }
  }

  lemma WalkIsChain(g: Grid, links: set<Link>, p: seq<Cell>)
    requires Rectangular(g) && (forall c :: InGrid(g, c) ==> Joined(g, links, c)) && Walk(g, p)
    ensures Chain(seq(|p|, k requires 0 <= k < |p| => Id(p[k], |g[0]|)), links)
  {
    var q := seq(|p|, k requires 0 <= k < |p| => Id(p[k], |g[0]|));
    forall k | 0 <= k < |q| - 1
      ensures Touching(links, q[k], q[k + 1])
    {
      assert Adjacent(g, p[k], p[k + 1]);
      var d :| Open(g, p[k], d) && p[k + 1] == Beside(p[k], d);
      assert Joined(g, links, p[k]);
    }
  }

  /** When every open pair is linked and nothing else is, the corners are connected exactly when a walk joins them. */
  lemma ConnectedIsPath(g: Grid, links: set<Link>)
    requires Rectangular(g) && Sound(g, links) && forall c :: InGrid(g, c) ==> Joined(g, links, c)
    ensures Connected(links, Id(Cell(0, 0), |g[0]|), Id(Cell(|g| - 1, |g[0]| - 1), |g[0]|)) <==> HasPath(g)
  {
    var start, end, n := Cell(0, 0), Cell(|g| - 1, |g[0]| - 1), |g[0]|;
    IdRoundTrip(start, |g|, n);
    IdRoundTrip(end, |g|, n);
    if Connected(links, Id(start, n), Id(end, n)) {
      var p :| Chain(p, links) && p[0] == Id(start, n) && p[|p| - 1] == Id(end, n);
      ChainIsWalk(g, links, p);
    }
    if HasPath(g) {
      var p :| Walk(g, p) && p[0] == start && p[|p| - 1] == end;
      WalkIsChain(g, links, p);
      var q := seq(|p|, k requires 0 <= k < |p| => Id(p[k], n));
      assert q[0] == Id(start, n) && q[|q| - 1] == Id(end, n);
    }
  }

  // ---------- The solution ----------

  class Solution {
    var mGrid: Grid
    var mM: int
    var mN: int

    ghost predicate Loaded()
      reads this
    {
      Rectangular(mGrid) && mM == |mGrid| && mN == |mGrid[0]|
    }

    constructor () {
      mGrid, mM, mN := [], 0, 0;
    }

    /** Is there a street on the left that opens to the right? */
    function DetectL(x: int, y: int): (r: bool)
      requires Loaded() && InGrid(mGrid, Cell(x, y))
      reads this
      ensures r <==> InGrid(mGrid, Cell(x, y - 1)) && Right in Opens(mGrid[x][y - 1])
    {
      if y - 1 < 0 then false
      else
        var num := mGrid[x][y - 1];
        num == 1 || num == 4 || num == 6
    }

    function DetectR(x: int, y: int): (r: bool)
      requires Loaded() && InGrid(mGrid, Cell(x, y))
      reads this
      ensures r <==> InGrid(mGrid, Cell(x, y + 1)) && Left in Opens(mGrid[x][y + 1])
    {
      if y + 1 >= mN then false
      else
        var num := mGrid[x][y + 1];
        num == 1 || num == 3 || num == 5
    }

    function DetectU(x: int, y: int): (r: bool)
      requires Loaded() && InGrid(mGrid, Cell(x, y))
      reads this
      ensures r <==> InGrid(mGrid, Cell(x - 1, y)) && Down in Opens(mGrid[x - 1][y])
    {
      if x - 1 < 0 then false
      else
        var num := mGrid[x - 1][y];
        num == 2 || num == 3 || num == 4
    }

    function DetectB(x: int, y: int): (r: bool)
      requires Loaded() && InGrid(mGrid, Cell(x, y))
      reads this
      ensures r <==> InGrid(mGrid, Cell(x + 1, y)) && Up in Opens(mGrid[x + 1][y])
    {
      if x + 1 >= mM then false
      else
        var num := mGrid[x + 1][y];
        num == 2 || num == 5 || num == 6
    }

    function GetId(x: int, y: int): (id: int)
      reads this
      ensures id == Id(Cell(x, y), mN)
    {
      x * mN + y
    }

    /** One union, if the street on side d is open to cell (x, y). */
    method JoinIf(ok: bool, disSet: DisjointSet, x: int, y: int, d: Side)
      requires Loaded() && disSet.Valid() && disSet.mSize == mM * mN && Sound(mGrid, disSet.links)
      requires ok <==> Open(mGrid, Cell(x, y), d)
      modifies disSet, disSet.f
      ensures disSet.Valid() && Sound(mGrid, disSet.links)
      ensures old(disSet.links) <= disSet.links && (ok ==> LinkOf(Cell(x, y), d, mN) in disSet.links)
    {
      if ok {
        var c := Beside(Cell(x, y), d);
        LinkIsSound(mGrid, Cell(x, y), d);
        IdRoundTrip(c, mM, mN);
        IdRoundTrip(Cell(x, y), mM, mN);
        disSet.UnionNums(GetId(c.x, c.y), GetId(x, y));
        assert LinkOf(Cell(x, y), d, mN) in {LinkOf(Cell(x, y), d, mN)};
      }
    }

    /** The two unions of a street that is open on sides d and e. */
    method JoinBoth(disSet: DisjointSet, x: int, y: int, d: Side, dOk: bool, e: Side, eOk: bool)
      requires Loaded() && disSet.Valid() && disSet.mSize == mM * mN && Sound(mGrid, disSet.links)
      requires InGrid(mGrid, Cell(x, y)) && Opens(mGrid[x][y]) == {d, e}
      requires (dOk <==> Open(mGrid, Cell(x, y), d)) && (eOk <==> Open(mGrid, Cell(x, y), e))
      modifies disSet, disSet.f
      ensures disSet.Valid() && Sound(mGrid, disSet.links)
      ensures old(disSet.links) <= disSet.links && Joined(mGrid, disSet.links, Cell(x, y))
    {
      JoinIf(dOk, disSet, x, y, d);
      JoinIf(eOk, disSet, x, y, e);
    }

    /** Joins a street to the streets it shares an opening with. */
    method Visit(disSet: DisjointSet, x: int, y: int)
      requires Loaded() && disSet.Valid() && disSet.mSize == mM * mN && InGrid(mGrid, Cell(x, y))
      requires Sound(mGrid, disSet.links)
      modifies disSet, disSet.f
      ensures disSet.Valid() && Sound(mGrid, disSet.links)
      ensures old(disSet.links) <= disSet.links && Joined(mGrid, disSet.links, Cell(x, y))
    {
      var num := mGrid[x][y];
      match num
      case 1 =>
        JoinBoth(disSet, x, y, Left, DetectL(x, y), Right, DetectR(x, y));
      case 2 =>
        JoinBoth(disSet, x, y, Up, DetectU(x, y), Down, DetectB(x, y));
      case 3 =>
        JoinBoth(disSet, x, y, Left, DetectL(x, y), Down, DetectB(x, y));
      case 4 =>
        JoinBoth(disSet, x, y, Right, DetectR(x, y), Down, DetectB(x, y));
      case 5 =>
        JoinBoth(disSet, x, y, Left, DetectL(x, y), Up, DetectU(x, y));
      case 6 =>
        JoinBoth(disSet, x, y, Up, DetectU(x, y), Right, DetectR(x, y));
      case _ =>
    }

    /** True exactly when a path of mutually open streets joins the two corners. */
    method HasValidPath(grid: Grid) returns (r: bool)
      requires Rectangular(grid)
      modifies this
      ensures r <==> HasPath(grid)
    {
      mGrid := grid;
      mM := |grid|;
      mN := |grid[0]|;
      var disSet := new DisjointSet(mM * mN);
      for x := 0 to mM
        invariant Loaded() && mGrid == grid && disSet.Valid() && fresh(disSet) && fresh(disSet.f)
          && disSet.mSize == mM * mN
        invariant Sound(grid, disSet.links)
        invariant forall c :: InGrid(grid, c) && c.x < x ==> Joined(grid, disSet.links, c)
      {
        for y := 0 to mN
          invariant Loaded() && mGrid == grid && disSet.Valid() && fresh(disSet) && fresh(disSet.f)
            && disSet.mSize == mM * mN
          invariant Sound(grid, disSet.links)
          invariant forall c :: InGrid(grid, c) && (c.x < x || (c.x == x && c.y < y)) ==> Joined(grid, disSet.links, c)
        {
          Visit(disSet, x, y);
        }
      }
      r := CornersJoined(disSet);
    }

    /** Whether the two corners are in one set, once every street has been visited. */
    method CornersJoined(disSet: DisjointSet) returns (r: bool)
      requires Loaded() && disSet.Valid() && disSet.mSize == mM * mN && Sound(mGrid, disSet.links)
      requires forall c :: InGrid(mGrid, c) ==> Joined(mGrid, disSet.links, c)
      ensures r <==> HasPath(mGrid)
    {
      var start, end := GetId(0, 0), GetId(mM - 1, mN - 1);
      IdRoundTrip(Cell(0, 0), mM, mN);
      IdRoundTrip(Cell(mM - 1, mN - 1), mM, mN);
      ConnectedIsPath(mGrid, disSet.links);
      disSet.FindRootTellsConnection(start, end);
      var first := disSet.FindRoot(start);
      var last := disSet.FindRoot(end);
      return first == last;
    }
  }
}
