/** N queens by backtracking on one board. */
module Queens {
  import opened Listings

  /** The columns of the queens, row by row from the top. */
  type Placement = seq<int>

  /** A queen in column c of the next row is attacked by none of q. */
  ghost predicate Unattacked(q: Placement, c: int) {
    forall i :: 0 <= i < |q| ==> q[i] != c && q[i] - c != |q| - i && c - q[i] != |q| - i
  }

  /** No two queens share a column or a diagonal. */
  ghost predicate Safe(q: Placement, n: int) {
    && (forall i :: 0 <= i < |q| ==> 0 <= q[i] < n)
    && (forall j :: 0 <= j < |q| ==> Unattacked(q[..j], q[j]))
  }

  lemma SafeOneMore(q: Placement, c: int, n: int)
    ensures Safe(q + [c], n) <==> Safe(q, n) && 0 <= c < n && Unattacked(q, c)
  {
    var r := q + [c];
    assert forall j :: 0 <= j < |q| ==> r[..j] == q[..j] && r[j] == q[j];
    assert r[..|q|] == q && r[|q|] == c;
  }

  lemma {:induction false} SafePrefix(p: Placement, k: nat, n: int)
    requires Safe(p, n) && k <= |p|
    ensures Safe(p[..k], n)
  {
    assert forall j :: 0 <= j < k ==> p[..k][..j] == p[..j];
  }

  /** The board as its rows. */
  function Row(c: int, n: nat): string {
    seq(n, i => if i == c then 'Q' else '.')
  }

  function Board(q: Placement, n: nat): (rows: seq<string>)
    ensures |rows| == |q| && forall i :: 0 <= i < |q| ==> rows[i] == Row(q[i], n)
  {
    seq(|q|, i requires 0 <= i < |q| => Row(q[i], n))
  }

  lemma BoardTellsPlacement(p: Placement, q: Placement, n: nat)
    requires Safe(p, n) && Safe(q, n) && Board(p, n) == Board(q, n)
    ensures p == q
  {
    assert |p| == |q|;
    forall i | 0 <= i < |p|
      ensures p[i] == q[i]
    {
      assert Board(p, n)[i] == Row(p[i], n) && Board(q, n)[i] == Row(q[i], n);
      assert Row(p[i], n)[p[i]] == 'Q';
    }
  }

  // ---------- Placements and sets of squares ----------

  datatype Square = Square(row: int, col: int)

  ghost predicate Attacks(a: Square, b: Square) {
    a.row == b.row || a.col == b.col || a.row - b.row == a.col - b.col || a.row - b.row == b.col - a.col
  }

  /** n queens on a board of n times n, none of which attacks another. */
  ghost predicate Peaceful(s: set<Square>, n: nat) {
    && |s| == n
    && (forall a :: a in s ==> 0 <= a.row < n && 0 <= a.col < n)
    && (forall a, b :: a in s && b in s && a != b ==> !Attacks(a, b))
  }

  ghost function Squares(p: Placement): set<Square> {
    set i | 0 <= i < |p| :: Square(i, p[i])
  }

  ghost function Rows(s: set<Square>): set<int> {
    set a | a in s :: a.row
  }

  lemma {:induction false} RowsCount(s: set<Square>)
    requires forall a, b :: a in s && b in s && a != b ==> a.row != b.row
    ensures |Rows(s)| == |s|
  {
    if s != {} {
      var a :| a in s;
      RowsCount(s - {a});
      assert Rows(s) == Rows(s - {a}) + {a.row};
      assert a.row !in Rows(s - {a});
    }
  }

  ghost function Range(n: nat): (r: set<int>)
    ensures |r| == n && forall i :: i in r <==> 0 <= i < n
  {
    if n == 0 then {} else Range(n - 1) + {n - 1}
  }

  lemma {:induction false} FullSubset(s: set<int>, t: set<int>)
    requires s <= t && |s| == |t|
    ensures s == t
  {
    assert (forall x :: x !in s) ==> s == {};
    if s != {} {
      var x :| x in s;
      FullSubset(s - {x}, t - {x});
    }
  }

  lemma {:induction false} SquaresCount(p: Placement)
    ensures |Squares(p)| == |p|
  {
    if p != [] {
      var k := |p| - 1;
      SquaresCount(p[..k]);
      assert Squares(p) == Squares(p[..k]) + {Square(k, p[k])};
    }
  }

  lemma SafeIsPeaceful(p: Placement, n: nat)
    requires Safe(p, n) && |p| == n
    ensures Peaceful(Squares(p), n)
  {
    SquaresCount(p);
    forall i, j | 0 <= i < j < |p|
      ensures !Attacks(Square(i, p[i]), Square(j, p[j]))
    {
      assert Unattacked(p[..j], p[j]) && p[..j][i] == p[i];
    }
  }

  lemma PeacefulIsSafe(p: Placement, n: nat)
    requires |p| == n && forall i :: 0 <= i < n ==> 0 <= p[i] < n
    requires forall i, j :: 0 <= i < j < n ==> !Attacks(Square(i, p[i]), Square(j, p[j]))
    ensures Safe(p, n)
  {
    forall j | 0 <= j < n
      ensures Unattacked(p[..j], p[j])
    {
      forall i | 0 <= i < j
        ensures p[i] != p[j] && p[i] - p[j] != j - i && p[j] - p[i] != j - i
      {
        assert !Attacks(Square(i, p[i]), Square(j, p[j]));
      }
    }
  }

  lemma ReadsAsPlacement(s: set<Square>, n: nat, p: Placement)
    requires Peaceful(s, n) && |p| == n && forall i :: 0 <= i < n ==> Square(i, p[i]) in s
    ensures Safe(p, n) && Squares(p) == s
  {
    PeacefulIsSafe(p, n);
    forall a | a in s
      ensures a in Squares(p)
    {
      assert Square(a.row, p[a.row]) in s;
    }
  }

  /** Every peaceful set of n queens has one in each row, so placements miss none. */
  lemma PeacefulIsPlacement(s: set<Square>, n: nat) returns (p: Placement)
    requires Peaceful(s, n)
    ensures Safe(p, n) && |p| == n && Squares(p) == s
  {
    RowsCount(s);
    FullSubset(Rows(s), Range(n));
    p := seq(n, i requires 0 <= i < n && i in Rows(s) => ColumnIn(s, i));
    ReadsAsPlacement(s, n, p);
  }

  ghost function ColumnIn(s: set<Square>, row: int): (col: int)
    requires row in Rows(s)
    ensures Square(row, col) in s
  {
    var a :| a in s && a.row == row;
    a.col
  }

  // ---------- The search tree ----------

  /** The completions of q, in the order of the search. */
  ghost function Solutions(q: Placement, n: nat): seq<Placement>
    requires |q| <= n
    decreases n - |q|, n + 1
  {
    if |q| == n then [q] else SolutionsFrom(q, 0, n)
  }

  /** Those with the next queen in column j or later. */
  ghost function SolutionsFrom(q: Placement, j: nat, n: nat): seq<Placement>
    requires |q| < n && j <= n
    decreases n - |q|, n - j
  {
    if j == n then []
    else (if Unattacked(q, j) then Solutions(q + [j], n) else []) + SolutionsFrom(q, j + 1, n)
  }

  ghost predicate Completes(p: Placement, q: Placement, n: nat) {
    Safe(p, n) && |p| == n && q <= p
  }

  lemma CompletesNext(p: Placement, q: Placement, j: nat, n: nat)
    requires Safe(q, n) && |q| < n && j < n
    ensures Completes(p, q + [j], n) <==> Completes(p, q, n) && p[|q|] == j
    ensures Completes(p, q + [j], n) ==> Unattacked(q, j)
  {
    SafeOneMore(q, j, n);
    if Completes(p, q + [j], n) {
      SafePrefix(p, |q| + 1, n);
      assert p[..|q| + 1] == q + [j];
      assert p[..|q|] == q;
    }
    if Completes(p, q, n) && p[|q|] == j {
      assert p[..|q| + 1] == q + [j];
    }
  }

  /** The search tree holds exactly the safe full placements that extend q. */
  lemma {:induction false} SolutionsExact(q: Placement, n: nat, p: Placement)
    requires Safe(q, n) && |q| <= n
    ensures p in Solutions(q, n) <==> Completes(p, q, n)
    decreases n - |q|, n + 1
  {
    if |q| < n {
      SolutionsFromExact(q, 0, n, p);
      assert Completes(p, q, n) ==> 0 <= p[|q|] < n;
    } else {
      assert q <= p && |p| == n ==> p == q;
    }
  }

  lemma {:induction false} SolutionsFromExact(q: Placement, j: nat, n: nat, p: Placement)
    requires Safe(q, n) && |q| < n && j <= n
    ensures p in SolutionsFrom(q, j, n) <==> Completes(p, q, n) && p[|q|] >= j
    decreases n - |q|, n - j
  {
    if j == n {
      assert Completes(p, q, n) ==> p[|q|] < n;
    } else {
      SolutionsFromExact(q, j + 1, n, p);
      CompletesNext(p, q, j, n);
      SafeOneMore(q, j, n);
      if Unattacked(q, j) {
        SolutionsExact(q + [j], n, p);
      }
    }
  }

  /** No placement is found twice. */
  /** What completes q with a queen in column j is not found with a later column. */
  lemma NotLater(q: Placement, j: nat, n: nat, p: Placement)
    requires Safe(q, n) && |q| < n && j < n && Unattacked(q, j) && p in Solutions(q + [j], n)
    ensures p !in SolutionsFrom(q, j + 1, n)
  {
    SafeOneMore(q, j, n);
    SolutionsExact(q + [j], n, p);
    SolutionsFromExact(q, j + 1, n, p);
    CompletesNext(p, q, j, n);
  }

  lemma {:induction false} SolutionsDistinct(q: Placement, n: nat)
    requires Safe(q, n) && |q| <= n
    ensures Distinct(Solutions(q, n))
    decreases n - |q|, n + 1
  {
    if |q| < n {
      SolutionsFromDistinct(q, 0, n);
    }
  }

  lemma {:induction false} SolutionsFromDistinct(q: Placement, j: nat, n: nat)
    requires Safe(q, n) && |q| < n && j <= n
    ensures Distinct(SolutionsFrom(q, j, n))
    decreases n - |q|, n - j
  {
    if j < n {
      SolutionsFromDistinct(q, j + 1, n);
      SafeOneMore(q, j, n);
      if Unattacked(q, j) {
        SolutionsDistinct(q + [j], n);
        var here, later := Solutions(q + [j], n), SolutionsFrom(q, j + 1, n);
        forall p | p in here
          ensures p !in later
        {
          NotLater(q, j, n, p);
        }
        DistinctConcat(here, later);
      }
    }
  }

  // ---------- Boards of solutions ----------

  function Boards(s: seq<Placement>, n: nat): (r: seq<seq<string>>)
    ensures |r| == |s| && forall i :: 0 <= i < |s| ==> r[i] == Board(s[i], n)
  {
    seq(|s|, i requires 0 <= i < |s| => Board(s[i], n))
  }

  /** The boards found below column j of the next row. */
  ghost function BoardsAt(q: Placement, j: nat, n: nat): seq<seq<string>>
    requires |q| < n && j < n
  {
    if Unattacked(q, j) then Boards(Solutions(q + [j], n), n) else []
  }

  lemma SearchOn(q: Placement, j: nat, n: nat)
    requires |q| < n && j < n
    ensures Boards(SolutionsFrom(q, j, n), n) == BoardsAt(q, j, n) + Boards(SolutionsFrom(q, j + 1, n), n)
  {
    BoardsAppend(if Unattacked(q, j) then Solutions(q + [j], n) else [], SolutionsFrom(q, j + 1, n), n);
  }

  /** found and what is still to come stay the same together. */
  lemma Carry(found: seq<seq<string>>, q: Placement, j: nat, n: nat, all: seq<seq<string>>)
    requires |q| < n && j <= n && found + Boards(SolutionsFrom(q, j, n), n) == all
    ensures j < n ==> found + BoardsAt(q, j, n) + Boards(SolutionsFrom(q, j + 1, n), n) == all
    ensures j == n ==> found == all
  {
    if j < n {
      SearchOn(q, j, n);
    }
  }

  lemma BoardsAppend(s: seq<Placement>, t: seq<Placement>, n: nat)
    ensures Boards(s + t, n) == Boards(s, n) + Boards(t, n)
  {
  }

  /** n rows of n characters, each a queen or an empty square. */
  predicate IsBoard(b: seq<string>, n: nat) {
    && |b| == n
    && (forall r :: 0 <= r < n ==> |b[r]| == n)
    && (forall r, c :: 0 <= r < n && 0 <= c < n ==> b[r][c] == 'Q' || b[r][c] == '.')
  }

  /** The squares with a queen. */
  function QueensOn(b: seq<string>): set<Square> {
    set r, c | 0 <= r < |b| && 0 <= c < |b[r]| && b[r][c] == 'Q' :: Square(r, c)
  }

  /** all shows every peaceful set of n queens on exactly one board, and nothing else. */
  ghost predicate EverySolutionOnce(all: seq<seq<string>>, n: nat) {
    && Distinct(all)
    && (forall b :: b in all ==> IsBoard(b, n) && Peaceful(QueensOn(b), n))
    && (forall s :: Peaceful(s, n) ==> exists b :: b in all && QueensOn(b) == s)
    && (forall b, d :: b in all && d in all && QueensOn(b) == QueensOn(d) ==> b == d)
  }

  lemma QueensOnBoard(p: Placement, n: nat)
    requires Safe(p, n) && |p| == n
    ensures IsBoard(Board(p, n), n) && QueensOn(Board(p, n)) == Squares(p)
  {
    var b := Board(p, n);
    forall r, c | 0 <= r < n && 0 <= c < n
      ensures |b[r]| == n && (b[r][c] == if c == p[r] then 'Q' else '.')
    {
      assert b[r] == Row(p[r], n);
    }
    assert forall r :: 0 <= r < n ==> |b[r]| == n;
    forall a: Square
      ensures a in QueensOn(b) <==> a in Squares(p)
    {
      if a in Squares(p) {
        assert b[a.row][a.col] == 'Q';
      }
    }
  }

  /** A board is told by the squares with a queen. */
  lemma BoardsTold(b: seq<string>, d: seq<string>, n: nat)
    requires IsBoard(b, n) && IsBoard(d, n) && QueensOn(b) == QueensOn(d)
    ensures b == d
  {
    forall r, c | 0 <= r < n && 0 <= c < n
      ensures b[r][c] == d[r][c]
    {
      assert Square(r, c) in QueensOn(b) <==> Square(r, c) in QueensOn(d);
    }
    forall r | 0 <= r < n
      ensures b[r] == d[r]
    {
    }
  }

  lemma SearchFindsAll(n: nat)
    ensures EverySolutionOnce(Boards(Solutions([], n), n), n)
  {
    var s := Solutions([], n);
    var all := Boards(s, n);
    SearchFindsPlacements(n);
    forall b | b in all
      ensures IsBoard(b, n) && Peaceful(QueensOn(b), n)
    {
      var p :| Safe(p, n) && |p| == n && b == Board(p, n);
      QueensOnBoard(p, n);
      SafeIsPeaceful(p, n);
    }
    forall q | Peaceful(q, n)
      ensures exists b :: b in all && QueensOn(b) == q
    {
      var p := PeacefulIsPlacement(q, n);
      QueensOnBoard(p, n);
      assert Board(p, n) in all;
    }
    forall b, d | b in all && d in all && QueensOn(b) == QueensOn(d)
      ensures b == d
    {
      BoardsTold(b, d, n);
    }
  }

  /** In terms of placements: the boards of all, each once. */
  lemma SearchFindsPlacements(n: nat)
    ensures var all := Boards(Solutions([], n), n);
      && Distinct(all)
      && (forall b :: b in all ==> exists p :: Safe(p, n) && |p| == n && b == Board(p, n))
      && (forall p :: Safe(p, n) && |p| == n ==> Board(p, n) in all)
  {
    var s := Solutions([], n);
    var all := Boards(s, n);
    SolutionsDistinct([], n);
    forall p
      ensures p in s <==> Safe(p, n) && |p| == n
    {
      SolutionsExact([], n, p);
    }
    forall i, j | 0 <= i < j < |all|
      ensures all[i] != all[j]
    {
      assert s[i] in s && s[j] in s;
      if all[i] == all[j] {
        BoardTellsPlacement(s[i], s[j], n);
      }
    }
    forall b | b in all
      ensures exists p :: Safe(p, n) && |p| == n && b == Board(p, n)
    {
      var i :| 0 <= i < |all| && all[i] == b;
      assert s[i] in s;
    }
    forall p | Safe(p, n) && |p| == n
      ensures Board(p, n) in all
    {
      var i :| 0 <= i < |s| && s[i] == p;
      assert all[i] == Board(p, n);
    }
  }

  // ---------- The solution ----------

  /** The first rows of the board show q; what is below does not matter. */
  ghost predicate Shows(board: array2<char>, q: Placement, n: nat)
    reads board
  {
    && board.Length0 == n == board.Length1 && |q| <= n
    && (forall r, c :: 0 <= r < |q| && 0 <= c < n ==> board[r, c] == if c == q[r] then 'Q' else '.')
  }

  lemma ShowsAbove(board: array2<char>, q: Placement, j: int, n: nat)
    requires Shows(board, q + [j], n)
    ensures Shows(board, q, n)
  {
    assert forall r {:trigger q[r]} :: 0 <= r < |q| ==> (q + [j])[r] == q[r];
  }

  class Solution {
    var res: seq<seq<string>>

    constructor ()
      ensures res == []
    {
      res := [];
    }

    /** Looks up the column and both diagonals above (row, col). */
    method IsVaild(board: array2<char>, row: nat, col: nat, n: nat, ghost q: Placement) returns (valid: bool)
      requires Shows(board, q, n) && Safe(q, n) && row == |q| < n && col < n
      ensures valid <==> Unattacked(q, col)
    {
      for i := 0 to row
        invariant forall k :: 0 <= k < i ==> q[k] != col
      {
        if board[i, col] == 'Q' {
          return false;
        }
      }
      var i, j := row, col;
      while i - 1 >= 0 && j - 1 >= 0
        invariant 0 <= i <= row && 0 <= j <= col && row - i == col - j
        invariant forall k :: i <= k < row ==> col - q[k] != row - k
      {
        i, j := i - 1, j - 1;
        if board[i, j] == 'Q' {
          return false;
        }
      }
      i, j := row, col;
      while i - 1 >= 0 && j + 1 < n
        invariant 0 <= i <= row && col <= j < n && row - i == j - col
        invariant forall k :: i <= k < row ==> q[k] - col != row - k
      {
        i, j := i - 1, j + 1;
        if board[i, j] == 'Q' {
          return false;
        }
      }
      return true;
    }

    /** A finished board as its rows. */
    method Copy(board: array2<char>, n: nat, ghost q: Placement) returns (one: seq<string>)
      requires Shows(board, q, n) && |q| == n
      ensures one == Board(q, n)
    {
      one := [];
      for r := 0 to n
        invariant |one| == r && forall i :: 0 <= i < r ==> one[i] == Row(q[i], n)
      {
        var chs := "";
        for c := 0 to n
          invariant |chs| == c && forall k :: 0 <= k < c ==> chs[k] == if k == q[r] then 'Q' else '.'
        {
          chs := chs + [board[r, c]];
        }
        one := one + [chs];
      }
    }

    /** Puts the only queen of the row into column j. */
    method Put(board: array2<char>, row: nat, j: nat, n: nat, ghost q: Placement)
      requires Shows(board, q, n) && row == |q| < n && j < n
      modifies board
      ensures Shows(board, q + [j], n)
    {
      board[row, j] := 'Q';
      for k := 0 to j
        invariant board[row, j] == 'Q' && Shows(board, q, n)
        invariant forall c :: 0 <= c < k ==> board[row, c] == '.'
      {
        board[row, k] := '.';
      }
      for k := j + 1 to n
        invariant board[row, j] == 'Q' && Shows(board, q, n)
        invariant forall c :: 0 <= c < k && c != j ==> board[row, c] == '.'
      {
        board[row, k] := '.';
      }
    }

    /** Appends the boards of all completions of the rows above row. */
    method Dfs(board: array2<char>, row: nat, n: nat, ghost q: Placement)
      requires Shows(board, q, n) && Safe(q, n) && row == |q| <= n
      modifies this, board
      ensures Shows(board, q, n)
      ensures res == old(res) + Boards(Solutions(q, n), n)
      decreases n - row, 1
    {
      if row == n {
        Record(board, n, q);
        return;
      }
      ghost var all := res + Boards(SolutionsFrom(q, 0, n), n);
      for j := 0 to n
        invariant Shows(board, q, n)
        invariant res + Boards(SolutionsFrom(q, j, n), n) == all
      {
        Carry(res, q, j, n, all);
        Try(board, row, j, n, q);
      }
      Carry(res, q, n, n, all);
    }

    method Record(board: array2<char>, n: nat, ghost q: Placement)
      requires Shows(board, q, n) && |q| == n
      modifies this
      ensures res == old(res) + Boards(Solutions(q, n), n)
    {
      var one := Copy(board, n, q);
      assert Boards([q], n) == [one];
      res := res + [one];
    }

    /** One turn of the loop: the queen of the row in column j, if it is not attacked there. */
    method Try(board: array2<char>, row: nat, j: nat, n: nat, ghost q: Placement)
      requires Shows(board, q, n) && Safe(q, n) && row == |q| < n && j < n
      modifies this, board
      ensures Shows(board, q, n)
      ensures res == old(res) + BoardsAt(q, j, n)
      decreases n - row, 0
    {
      var valid := IsVaild(board, row, j, n, q);
      if !valid {
        return;
      }
      Put(board, row, j, n, q);
      SafeOneMore(q, j, n);
      Dfs(board, row + 1, n, q + [j]);
      ShowsAbove(board, q, j, n);
      board[row, j] := '.';
    }

    /** Every solution board, each once. */
    method SolveNQueens(n: nat) returns (all: seq<seq<string>>)
      modifies this
      ensures all == res == old(res) + Boards(Solutions([], n), n)
      ensures exists found :: EverySolutionOnce(found, n) && all == old(res) + found
    {
      var board := new char[n, n]((r, c) => '\0');
      Dfs(board, 0, n, []);
      SearchFindsAll(n);
      return res;
    }
  }
}
