/**
 * The minesweeper kata: a 20 by 25 board of runes, '.' for an empty cell and
 * '*' for a mine, filled with 99 mines at random, then annotated in place:
 * every empty cell next to at least one mine gets the digit of its count.
 */
module Minesweeper {
  import opened Strings

  const Rows: nat := 20
  const Cols: nat := 25
  const MineCount: nat := 99

  const Mine: char := '*'
  const Empty: char := '.'

  /** The eight neighbours of a cell, as row and column offsets, in the order they are visited. */
  const Directions: seq<(int, int)> := [(-1, -1), (-1, 0), (-1, 1), (0, -1), (0, 1), (1, -1), (1, 0), (1, 1)]

  /** A board as a value: `Rows` rows of `Cols` cells. */
  type Grid = seq<seq<char>>

  predicate IsBoard(g: Grid) {
    |g| == Rows && forall r :: 0 <= r < Rows ==> |g[r]| == Cols
  }

  predicate InBounds(r: int, c: int) {
    0 <= r < Rows && 0 <= c < Cols
  }

  predicate MineAt(g: Grid, r: int, c: int)
    requires IsBoard(g)
  {
    InBounds(r, c) && g[r][c] == Mine
  }

  /** The mines among the first `k` neighbours of cell (r, c); cells off the board count as empty. */
  function MinesAmong(g: Grid, r: int, c: int, k: nat): (n: nat)
    requires IsBoard(g) && k <= |Directions|
    ensures n <= k
  {
    if k == 0 then 0
    else
      var d := Directions[k - 1];
      MinesAmong(g, r, c, k - 1) + (if MineAt(g, r + d.0, c + d.1) then 1 else 0)
  }

  /** The number of mines next to cell (r, c). */
  function MinesAround(g: Grid, r: int, c: int): (n: nat)
    requires IsBoard(g)
    ensures n <= 8
  {
    MinesAmong(g, r, c, |Directions|)
  }

  /** What the annotation turns cell (r, c) into: the digit of its count for an empty cell next to mines. */
  function Annotation(g: Grid, r: int, c: int): char
    requires IsBoard(g) && InBounds(r, c)
  {
    var k := MinesAround(g, r, c);
    if g[r][c] == Empty && k > 0 then DigitChar(k) else g[r][c]
  }

  /** The annotated board, every cell computed from the board as it was. */
  function Annotated(g: Grid): (a: Grid)
    requires IsBoard(g)
    ensures IsBoard(a)
  {
    seq(Rows, r requires 0 <= r < Rows => seq(Cols, c requires 0 <= c < Cols => Annotation(g, r, c)))
  }

  /** The cells that hold a mine. */
  ghost function MineSet(g: Grid): set<(int, int)>
    requires IsBoard(g)
  {
    set r, c | 0 <= r < Rows && 0 <= c < Cols && g[r][c] == Mine :: (r, c)
  }

  /** The board the arrays hold, as a value. */
  predicate Shaped(board: array2<char>) {
    board.Length0 == Rows && board.Length1 == Cols
  }

  function Cells(board: array2<char>): (g: Grid)
    requires Shaped(board)
    reads board
    ensures IsBoard(g)
    ensures forall r, c :: InBounds(r, c) ==> g[r][c] == board[r, c]
  {
    seq(Rows, r requires 0 <= r < Rows reads board => seq(Cols, c requires 0 <= c < Cols reads board => board[r, c]))
  }

  /** `countMines`: visit the eight directions and count the neighbours on the board that hold a mine. */
  method CountMines(board: array2<char>, r: int, c: int) returns (count: nat)
    requires Shaped(board)
    ensures count == MinesAround(Cells(board), r, c)
  {
    ghost var g := Cells(board);
    count := 0;
    for k := 0 to |Directions|
      invariant count == MinesAmong(g, r, c, k)
    {
      var d := Directions[k];
      var nr, nc := r + d.0, c + d.1;
      if nr >= 0 && nr < Rows && nc >= 0 && nc < Cols && board[nr, nc] == Mine {
        count := count + 1;
      }
    }
  }

  /** Only the mine or no-mine state of the neighbours matters, never the cell itself. */
  lemma {:induction false} MinesAmongLocal(g1: Grid, g2: Grid, r: int, c: int, k: nat)
    requires IsBoard(g1) && IsBoard(g2) && k <= |Directions|
    requires forall i :: 0 <= i < k ==> MineAt(g1, r + Directions[i].0, c + Directions[i].1) == MineAt(g2, r + Directions[i].0, c + Directions[i].1)
    ensures MinesAmong(g1, r, c, k) == MinesAmong(g2, r, c, k)
    decreases k
  {
    if k > 0 {
      MinesAmongLocal(g1, g2, r, c, k - 1);
    }
  }

  /** Two boards that agree on which neighbours of (r, c) hold mines give it the same count, whatever (r, c) itself holds. */
  lemma MinesAroundLocal(g1: Grid, g2: Grid, r: int, c: int)
    requires IsBoard(g1) && IsBoard(g2)
    requires forall i, j :: InBounds(i, j) && -1 <= i - r <= 1 && -1 <= j - c <= 1 && (i, j) != (r, c) ==> (g1[i][j] == Mine <==> g2[i][j] == Mine)
    ensures MinesAround(g1, r, c) == MinesAround(g2, r, c)
  {
    forall i | 0 <= i < |Directions|
      ensures MineAt(g1, r + Directions[i].0, c + Directions[i].1) == MineAt(g2, r + Directions[i].0, c + Directions[i].1)
    {
      var d := Directions[i];
      assert -1 <= d.0 <= 1 && -1 <= d.1 <= 1 && d != (0, 0);
    }
    MinesAmongLocal(g1, g2, r, c, |Directions|);
  }

  /** A corner has three neighbours on the board, so it counts at most three mines. */
  lemma CornerCount(g: Grid)
    requires IsBoard(g)
    ensures MinesAround(g, 0, 0) <= 3
  {
    forall k | 0 <= k < |Directions| && k !in {4, 6, 7}
      ensures MinesAmong(g, 0, 0, k + 1) == MinesAmong(g, 0, 0, k)
    {
      assert !InBounds(Directions[k].0, Directions[k].1);
    }
    assert MinesAmong(g, 0, 0, 1) == 0;
    assert MinesAmong(g, 0, 0, 2) == 0;
    assert MinesAmong(g, 0, 0, 3) == 0;
    assert MinesAmong(g, 0, 0, 4) == 0;
    assert MinesAmong(g, 0, 0, 5) <= 1;
    assert MinesAmong(g, 0, 0, 6) <= 1;
    assert MinesAmong(g, 0, 0, 7) <= 2;
  }

  /** Annotation never creates or removes a mine. */
  lemma AnnotationKeepsMines(g: Grid, r: int, c: int)
    requires IsBoard(g) && InBounds(r, c)
    ensures Annotation(g, r, c) == Mine <==> g[r][c] == Mine
  {
  }

  /** An empty cell becomes the digit of its count when it has mines around, and stays empty otherwise. */
  lemma AnnotationOfEmpty(g: Grid, r: int, c: int)
    requires IsBoard(g) && InBounds(r, c) && g[r][c] == Empty
    ensures MinesAround(g, r, c) == 0 ==> Annotation(g, r, c) == Empty
    ensures MinesAround(g, r, c) > 0 ==> IsDigit(Annotation(g, r, c)) && DigitValue(Annotation(g, r, c)) == MinesAround(g, r, c)
  {
  }

  /** The mines stay where they are, so annotating does not change a count. */
  lemma AnnotatedCounts(g: Grid, r: int, c: int)
    requires IsBoard(g)
    ensures MinesAround(Annotated(g), r, c) == MinesAround(g, r, c)
    ensures MineSet(Annotated(g)) == MineSet(g)
  {
    var a := Annotated(g);
    forall i, j | InBounds(i, j)
      ensures a[i][j] == Mine <==> g[i][j] == Mine
    {
      AnnotationKeepsMines(g, i, j);
    }
    MinesAroundLocal(a, g, r, c);
  }

  /** Annotating twice is annotating once: digits are no longer empty cells and empty cells still count no mines. */
  lemma AnnotateIdempotent(g: Grid)
    requires IsBoard(g)
    ensures Annotated(Annotated(g)) == Annotated(g)
  {
    var a := Annotated(g);
    forall r | 0 <= r < Rows
      ensures Annotated(a)[r] == a[r]
    {
      forall c | 0 <= c < Cols
        ensures Annotation(a, r, c) == a[r][c]
      {
        AnnotatedCounts(g, r, c);
      }
    }
  }

  /** Cells whose mine state is the same give the same counts. */
  lemma SameMinesSameCount(g1: Grid, g2: Grid, r: int, c: int)
    requires IsBoard(g1) && IsBoard(g2)
    requires forall i, j :: InBounds(i, j) ==> (g1[i][j] == Mine <==> g2[i][j] == Mine)
    ensures MinesAround(g1, r, c) == MinesAround(g2, r, c)
  {
    MinesAroundLocal(g1, g2, r, c);
  }

  /**
   * `updateBoard`: rewrite the board in place, row by row. Because a written
   * digit is never a mine, every count equals the count on the original board.
   */
  method UpdateBoard(board: array2<char>)
    requires Shaped(board)
    modifies board
    ensures forall r, c :: InBounds(r, c) ==> board[r, c] == Annotation(old(Cells(board)), r, c)
  {
    ghost var orig := Cells(board);
    for r := 0 to Rows
      invariant forall i, j :: InBounds(i, j) ==> board[i, j] == if i < r then Annotation(orig, i, j) else orig[i][j]
    {
      for c := 0 to Cols
        invariant forall i, j :: InBounds(i, j) ==> board[i, j] == if i < r || (i == r && j < c) then Annotation(orig, i, j) else orig[i][j]
      {
        if board[r, c] == Empty {
          var mineCount := CountMines(board, r, c);
          assert mineCount == MinesAround(orig, r, c) by {
            forall i, j | InBounds(i, j)
              ensures Cells(board)[i][j] == Mine <==> orig[i][j] == Mine
            {
              AnnotationKeepsMines(orig, i, j);
            }
            SameMinesSameCount(Cells(board), orig, r, c);
          }
          if mineCount > 0 {
            board[r, c] := DigitChar(mineCount);
          }
        }
      }
    }
  }

  /** The distinct cells among the draws. */
  ghost function Drawn(picks: seq<(int, int)>): set<(int, int)> {
    set i | 0 <= i < |picks| :: picks[i]
  }

  lemma DrawnSnoc(picks: seq<(int, int)>, i: nat)
    requires i < |picks|
    ensures Drawn(picks[..i + 1]) == Drawn(picks[..i]) + {picks[i]}
  {
    assert picks[..i + 1] == picks[..i] + [picks[i]];
    assert picks[..i + 1][i] == picks[i];
  }

  lemma DrawnAll(picks: seq<(int, int)>)
    ensures Drawn(picks[..|picks|]) == Drawn(picks)
  {
    assert picks[..|picks|] == picks;
  }

  /**
   * `generateMinefield`: fill the board with empty cells, then draw cells
   * (the supplied `picks` stand for the `rand.Intn(rows), rand.Intn(cols)`
   * pairs) and put a mine on each drawn cell that has none, until 99 mines
   * are down. The draws must hold 99 distinct cells for the loop to end.
   */
  method GenerateMinefield(picks: seq<(int, int)>) returns (board: array2<char>)
    requires forall i :: 0 <= i < |picks| ==> InBounds(picks[i].0, picks[i].1)
    requires |Drawn(picks)| >= MineCount
    ensures fresh(board) && Shaped(board)
    ensures |MineSet(Cells(board))| == MineCount
    ensures exists n :: 0 <= n <= |picks| && MineSet(Cells(board)) == Drawn(picks[..n])
    ensures forall r, c :: InBounds(r, c) ==> board[r, c] == Mine || board[r, c] == Empty
  {
    board := EmptyBoard();
    var mines := 0;
    var i := 0;
    ghost var placed: set<(int, int)> := {};
    assert picks[..0] == [];
    while mines < MineCount
      invariant 0 <= i <= |picks|
      invariant placed == Drawn(picks[..i])
      invariant mines == |placed| <= MineCount
      invariant forall r, c :: InBounds(r, c) ==> board[r, c] == if (r, c) in placed then Mine else Empty
      invariant forall p :: p in placed ==> InBounds(p.0, p.1)
      decreases |picks| - i
    {
      DrawnAll(picks);
      var r, c := picks[i].0, picks[i].1;
      DrawnSnoc(picks, i);
      if board[r, c] != Mine {
        board[r, c] := Mine;
        mines := mines + 1;
        placed := placed + {(r, c)};
      }
      i := i + 1;
    }
    MinesPlaced(Cells(board), placed);
  }

  /** The first half of `generateMinefield`: a new board with every cell empty. */
  method EmptyBoard() returns (board: array2<char>)
    ensures fresh(board) && Shaped(board)
    ensures forall r, c :: InBounds(r, c) ==> board[r, c] == Empty
  {
    board := new char[Rows, Cols];
    for r := 0 to Rows
      invariant forall i, j :: InBounds(i, j) && i < r ==> board[i, j] == Empty
    {
      for c := 0 to Cols
        invariant forall i, j :: InBounds(i, j) && (i < r || (i == r && j < c)) ==> board[i, j] == Empty
      {
        board[r, c] := Empty;
      }
    }
  }

  /** A board whose mines sit exactly on the cells of `placed` has `placed` as its mine set. */
  lemma MinesPlaced(g: Grid, placed: set<(int, int)>)
    requires IsBoard(g)
    requires forall r, c :: InBounds(r, c) ==> g[r][c] == if (r, c) in placed then Mine else Empty
    requires forall p :: p in placed ==> InBounds(p.0, p.1)
    ensures MineSet(g) == placed
  {
    forall p | p in placed
      ensures p in MineSet(g)
    {
      assert g[p.0][p.1] == Mine;
    }
  }
}
