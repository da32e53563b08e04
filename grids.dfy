/**
 * The 4x4 board of main_2048.py as a value, and what each engine operation
 * does to it: `Moved` for `move`, `EmptyCells` for `get_empty_cells`,
 * `PlaceTile` for `add_new_tile` (its two random draws given as parameters),
 * `Stuck` for `is_game_over` and `IsWin` for `is_win`.
 */
module Grids {
  import opened Lines

  const UP: int := 1
  const DOWN: int := 2
  const LEFT: int := 3
  const RIGHT: int := 4
  const SIZE: int := 4
  /** The tile value that wins the game. */
  const MAX_VALUE: int := 2048

  /** Rows of cells; `g[r][c]` is the cell in row r and column c. */
  type Grid = seq<seq<int>>

  predicate IsGrid(g: Grid)
  {
    |g| == SIZE && forall r :: 0 <= r < SIZE ==> |g[r]| == SIZE
  }

  /** A grid whose every cell is empty or a power of two of at least 2. */
  predicate IsBoard(g: Grid)
  {
    IsGrid(g) && forall r :: 0 <= r < SIZE ==> AllCellValues(g[r])
  }

  function Col(g: Grid, c: int): (col: seq<int>)
    requires IsGrid(g) && 0 <= c < SIZE
    ensures |col| == SIZE
  {
    seq(SIZE, r requires 0 <= r < SIZE => g[r][c])
  }

  /** Line `k` of the grid: column `k` when `vertical`, row `k` otherwise. */
  function LineOf(g: Grid, vertical: bool, k: int): (l: seq<int>)
    requires IsGrid(g) && 0 <= k < SIZE
    ensures |l| == SIZE
  {
    if vertical then Col(g, k) else g[k]
  }

  function Transpose(g: Grid): (t: Grid)
    requires IsGrid(g)
    ensures IsGrid(t)
    ensures forall r, c :: 0 <= r < SIZE && 0 <= c < SIZE ==> t[r][c] == g[c][r]
  {
    seq(SIZE, c requires 0 <= c < SIZE => Col(g, c))
  }

  /** Every row read from its other end. */
  function MirrorRows(g: Grid): (m: Grid)
    requires IsGrid(g)
    ensures IsGrid(m)
  {
    seq(SIZE, r requires 0 <= r < SIZE => Reverse(g[r]))
  }

  /** UP and DOWN work on columns, LEFT and RIGHT on rows. */
  predicate IsVertical(direction: int)
  {
    direction == UP || direction == DOWN
  }

  /** UP and LEFT slide toward index 0, DOWN and RIGHT toward index SIZE-1. */
  predicate IsForward(direction: int)
  {
    direction == UP || direction == LEFT
  }

  predicate IsDirection(direction: int)
  {
    direction == UP || direction == DOWN || direction == LEFT || direction == RIGHT
  }

  /**
   * The board after `move(board, direction)` (main_2048.py:49-94): every
   * column (UP, DOWN) or row (LEFT, RIGHT) slid toward its leading edge; any
   * other direction value falls through every branch and changes nothing.
   */
  function Moved(g: Grid, direction: int): (h: Grid)
    requires IsGrid(g)
    ensures IsGrid(h)
  {
    if direction == UP then seq(SIZE, r requires 0 <= r < SIZE => seq(SIZE, c requires 0 <= c < SIZE => SlideFront(Col(g, c))[r]))
    else if direction == DOWN then seq(SIZE, r requires 0 <= r < SIZE => seq(SIZE, c requires 0 <= c < SIZE => SlideBack(Col(g, c))[r]))
    else if direction == LEFT then seq(SIZE, r requires 0 <= r < SIZE => SlideFront(g[r]))
    else if direction == RIGHT then seq(SIZE, r requires 0 <= r < SIZE => SlideBack(g[r]))
    else g
  }

  // ---------------------------------------------------------------------
  // Lines are independent
  // ---------------------------------------------------------------------

  /**
   * Each line of the moved board is the slide of the same line of the input
   * board alone: no value crosses from one row (LEFT, RIGHT) or one column
   * (UP, DOWN) to another.
   */
  lemma {:induction false} MovedLines(g: Grid, direction: int)
    requires IsGrid(g) && IsDirection(direction)
    ensures forall k :: 0 <= k < SIZE ==>
      LineOf(Moved(g, direction), IsVertical(direction), k)
        == Slide(IsForward(direction), LineOf(g, IsVertical(direction), k))
  {
    // follows from Moved's definition, line by line
  }

  /** Two grids with the same lines, in either orientation, are equal. */
  lemma {:induction false} LinesDetermineGrid(g: Grid, h: Grid, vertical: bool)
    requires IsGrid(g) && IsGrid(h)
    requires forall k :: 0 <= k < SIZE ==> LineOf(g, vertical, k) == LineOf(h, vertical, k)
    ensures g == h
  {
    forall r | 0 <= r < SIZE ensures g[r] == h[r] {
      if vertical {
        forall c | 0 <= c < SIZE ensures g[r][c] == h[r][c] {
          assert LineOf(g, vertical, c)[r] == LineOf(h, vertical, c)[r];
        }
      } else {
        assert LineOf(g, vertical, r) == LineOf(h, vertical, r);
      }
    }
  }

  /**
   * Each line keeps its sum and gains no tile: values only move and merge
   * within their own line.
   */
  lemma {:induction false} MovedLineTotals(g: Grid, direction: int)
    requires IsGrid(g) && IsDirection(direction)
    ensures forall k :: 0 <= k < SIZE ==>
      Total(LineOf(Moved(g, direction), IsVertical(direction), k), Value)
        == Total(LineOf(g, IsVertical(direction), k), Value)
    ensures forall k :: 0 <= k < SIZE ==>
      Total(LineOf(Moved(g, direction), IsVertical(direction), k), Occupied)
        <= Total(LineOf(g, IsVertical(direction), k), Occupied)
  {
    MovedLines(g, direction);
    var v := IsVertical(direction);
    forall k | 0 <= k < SIZE
      ensures Total(LineOf(Moved(g, direction), v, k), Value) == Total(LineOf(g, v, k), Value)
      ensures Total(LineOf(Moved(g, direction), v, k), Occupied) <= Total(LineOf(g, v, k), Occupied)
    {
      var l := LineOf(g, v, k);
      if IsForward(direction) {
        SlideFrontKeepsSum(l);
        SlideFrontTileCount(l);
      } else {
        SlideBackKeepsSum(l);
        SlideBackTileCount(l);
      }
    }
  }

  /**
   * After LEFT every row has its tiles before its empty cells, after RIGHT its
   * empty cells first; UP and DOWN do the same for every column.
   */
  lemma {:induction false} MovedPacked(g: Grid, direction: int)
    requires IsGrid(g) && IsDirection(direction)
    ensures forall k :: 0 <= k < SIZE ==>
      var l := LineOf(Moved(g, direction), IsVertical(direction), k);
      if IsForward(direction) then PackedFront(l) else PackedBack(l)
  {
    // The statement follows from Moved's definition; naming the per-line
    // facts keeps the solver's search short.
    MovedLines(g, direction);
    var v := IsVertical(direction);
    forall k | 0 <= k < SIZE
      ensures var l := LineOf(Moved(g, direction), v, k);
        if IsForward(direction) then PackedFront(l) else PackedBack(l)
    {
      SlideFrontPacked(LineOf(g, v, k));
      SlideBackPacked(LineOf(g, v, k));
    }
  }

  // ---------------------------------------------------------------------
  // Sums over the whole grid
  // ---------------------------------------------------------------------

  /** Sum of `f` over every cell of the grid. */
  function GridTotal(g: Grid, f: int -> int): int
  {
    if g == [] then 0 else Total(g[0], f) + GridTotal(g[1..], f)
  }

  lemma {:induction false} TotalOfFour(l: seq<int>, f: int -> int)
    requires |l| == 4
    ensures Total(l, f) == f(l[0]) + f(l[1]) + f(l[2]) + f(l[3])
  {
    assert l[1..][0] == l[1] && l[1..][1..] == l[2..];
    assert l[2..][0] == l[2] && l[2..][1..] == l[3..];
    assert l[3..][0] == l[3] && l[3..][1..] == [];
    assert Total(l[3..], f) == f(l[3]);
    assert Total(l[2..], f) == f(l[2]) + Total(l[3..], f);
    assert Total(l[1..], f) == f(l[1]) + Total(l[2..], f);
  }

  lemma {:induction false} GridTotalOfFour(g: Grid, f: int -> int)
    requires |g| == 4
    ensures GridTotal(g, f) == Total(g[0], f) + Total(g[1], f) + Total(g[2], f) + Total(g[3], f)
  {
    assert g[1..][0] == g[1] && g[1..][1..] == g[2..];
    assert g[2..][0] == g[2] && g[2..][1..] == g[3..];
    assert g[3..][0] == g[3] && g[3..][1..] == [];
    assert GridTotal(g[3..], f) == Total(g[3], f);
    assert GridTotal(g[2..], f) == Total(g[2], f) + GridTotal(g[3..], f);
    assert GridTotal(g[1..], f) == Total(g[1], f) + GridTotal(g[2..], f);
  }

  /** Summing by columns gives the same as summing by rows. */
  lemma {:induction false} GridTotalTranspose(g: Grid, f: int -> int)
    requires IsGrid(g)
    ensures GridTotal(Transpose(g), f) == GridTotal(g, f)
  {
    var t := Transpose(g);
    GridTotalOfFour(g, f);
    GridTotalOfFour(t, f);
    forall r | 0 <= r < SIZE
      ensures Total(g[r], f) == f(g[r][0]) + f(g[r][1]) + f(g[r][2]) + f(g[r][3])
    {
      TotalOfFour(g[r], f);
    }
    forall c | 0 <= c < SIZE
      ensures Total(t[c], f) == f(g[0][c]) + f(g[1][c]) + f(g[2][c]) + f(g[3][c])
    {
      TotalOfFour(t[c], f);
    }
  }

  lemma {:induction false} GridTotalLinewise(a: Grid, b: Grid, f: int -> int)
    requires |a| == |b|
    requires forall i :: 0 <= i < |a| ==> Total(a[i], f) <= Total(b[i], f)
    ensures GridTotal(a, f) <= GridTotal(b, f)
  {
    if a != [] {
      GridTotalLinewise(a[1..], b[1..], f);
    }
  }

  /** Comparing two grids line by line, in either orientation, compares their totals. */
  lemma {:induction false} GridTotalByLines(g: Grid, h: Grid, vertical: bool, f: int -> int)
    requires IsGrid(g) && IsGrid(h)
    requires forall k :: 0 <= k < SIZE ==> Total(LineOf(g, vertical, k), f) <= Total(LineOf(h, vertical, k), f)
    ensures GridTotal(g, f) <= GridTotal(h, f)
  {
    if vertical {
      var tg, th := Transpose(g), Transpose(h);
      assert forall k :: 0 <= k < SIZE ==> tg[k] == LineOf(g, true, k) && th[k] == LineOf(h, true, k);
      GridTotalLinewise(tg, th, f);
      GridTotalTranspose(g, f);
      GridTotalTranspose(h, f);
    } else {
      assert forall k :: 0 <= k < SIZE ==> g[k] == LineOf(g, false, k) && h[k] == LineOf(h, false, k);
      GridTotalLinewise(g, h, f);
    }
  }

  /** `move` conserves the sum of all cells exactly. */
  lemma {:induction false} MovedKeepsTotal(g: Grid, direction: int)
    requires IsGrid(g)
    ensures GridTotal(Moved(g, direction), Value) == GridTotal(g, Value)
  {
    var h := Moved(g, direction);
    if IsDirection(direction) {
      MovedLineTotals(g, direction);
      GridTotalByLines(h, g, IsVertical(direction), Value);
      GridTotalByLines(g, h, IsVertical(direction), Value);
    }
  }

  /** `move` never increases the number of tiles on the board. */
  lemma {:induction false} MovedTileCount(g: Grid, direction: int)
    requires IsGrid(g)
    ensures GridTotal(Moved(g, direction), Occupied) <= GridTotal(g, Occupied)
  {
    if IsDirection(direction) {
      MovedLineTotals(g, direction);
      GridTotalByLines(Moved(g, direction), g, IsVertical(direction), Occupied);
    }
  }

  /** If every cell is empty or a power of two of at least 2, `move` keeps it so. */
  lemma {:induction false} MovedKeepsBoard(g: Grid, direction: int)
    requires IsBoard(g)
    ensures IsBoard(Moved(g, direction))
  {
    var h := Moved(g, direction);
    if IsDirection(direction) {
      MovedLines(g, direction);
      if IsVertical(direction) {
        forall c | 0 <= c < SIZE ensures AllCellValues(Col(h, c)) {
          assert AllCellValues(Col(g, c)) by {
            forall r | 0 <= r < SIZE ensures IsCellValue(Col(g, c)[r]) {
              assert Col(g, c)[r] == g[r][c];
            }
          }
          SlideFrontKeepsCellValues(Col(g, c));
          SlideBackKeepsCellValues(Col(g, c));
        }
        forall r | 0 <= r < SIZE ensures AllCellValues(h[r]) {
          forall c | 0 <= c < SIZE ensures IsCellValue(h[r][c]) {
            assert h[r][c] == Col(h, c)[r];
          }
        }
      } else {
        forall r | 0 <= r < SIZE ensures AllCellValues(h[r]) {
          SlideFrontKeepsCellValues(g[r]);
          SlideBackKeepsCellValues(g[r]);
        }
      }
    }
  }

  // ---------------------------------------------------------------------
  // The four directions are mirror and transpose images of one another
  // ---------------------------------------------------------------------

  /** RIGHT is: mirror every row, move LEFT, mirror every row back. */
  lemma {:induction false} MovedRightMirrorsLeft(g: Grid)
    requires IsGrid(g)
    ensures Moved(g, RIGHT) == MirrorRows(Moved(MirrorRows(g), LEFT))
  {
    forall r | 0 <= r < SIZE ensures SlideBack(g[r]) == Reverse(SlideFront(Reverse(g[r]))) {
      SlideBackMirror(g[r]);
    }
  }

  /** UP is LEFT on the transposed board, transposed back. */
  lemma {:induction false} MovedUpTransposesLeft(g: Grid)
    requires IsGrid(g)
    ensures Moved(g, UP) == Transpose(Moved(Transpose(g), LEFT))
  {
    var t := Transpose(g);
    var left := Moved(t, LEFT);
    var up := Moved(g, UP);
    var back := Transpose(left);
    forall r | 0 <= r < SIZE ensures up[r] == back[r] {
      forall c | 0 <= c < SIZE ensures up[r][c] == back[r][c] {
        assert t[c] == Col(g, c);
        assert left[c] == SlideFront(Col(g, c));
      }
    }
  }

  /** DOWN is RIGHT on the transposed board, transposed back. */
  lemma {:induction false} MovedDownTransposesRight(g: Grid)
    requires IsGrid(g)
    ensures Moved(g, DOWN) == Transpose(Moved(Transpose(g), RIGHT))
  {
    var t := Transpose(g);
    var right := Moved(t, RIGHT);
    var down := Moved(g, DOWN);
    var back := Transpose(right);
    forall r | 0 <= r < SIZE ensures down[r] == back[r] {
      forall c | 0 <= c < SIZE ensures down[r][c] == back[r][c] {
        assert t[c] == Col(g, c);
        assert right[c] == SlideBack(Col(g, c));
      }
    }
  }

  // ---------------------------------------------------------------------
  // Game over
  // ---------------------------------------------------------------------

  predicate Full(g: Grid)
    requires IsGrid(g)
  {
    forall r, c :: 0 <= r < SIZE && 0 <= c < SIZE ==> g[r][c] != EMPTY
  }

  /**
   * The condition `is_game_over` tests (main_2048.py:96-108): no cell is empty
   * and no two vertically or horizontally adjacent cells are equal.
   */
  predicate Stuck(g: Grid)
    requires IsGrid(g)
  {
    && Full(g)
    && (forall r, c {:trigger g[r][c]} :: 0 <= r < SIZE - 1 && 0 <= c < SIZE ==> g[r][c] != g[r + 1][c])
    && (forall r, c {:trigger g[r][c]} :: 0 <= r < SIZE && 0 <= c < SIZE - 1 ==> g[r][c] != g[r][c + 1])
  }

  /** A stuck board has no empty cell left, so `add_new_tile` cannot place a tile on it. */
  lemma {:induction false} StuckHasNoEmptyCell(g: Grid, choice: nat, drawBelow90: bool)
    requires IsGrid(g) && Stuck(g)
    ensures EmptyCells(g) == []
    ensures PlaceTile(g, choice, drawBelow90) == g
  {
    EmptyCellsFromCount(g, 0);
    FullEmptyCount(g, 0);
  }

  /** A full board has no empty cell at any row-major position from `k` on. */
  lemma {:induction false} FullEmptyCount(g: Grid, k: int)
    requires IsGrid(g) && Full(g) && 0 <= k <= SIZE * SIZE
    ensures EmptyCount(g, k) == 0
    decreases SIZE * SIZE - k
  {
    if k < SIZE * SIZE {
      RowMajor(k);
      FullEmptyCount(g, k + 1);
    }
  }

  /** On a full board, every line is compacted toward both of its ends. */
  lemma {:induction false} FullLinesPacked(g: Grid, vertical: bool, k: int)
    requires IsGrid(g) && Full(g) && 0 <= k < SIZE
    ensures PackedFront(LineOf(g, vertical, k)) && PackedBack(LineOf(g, vertical, k))
  {
  }

  /** A line of a full board has no mergeable pair exactly when its neighbours differ. */
  lemma {:induction false} FullLineNoPair(g: Grid, vertical: bool, k: int)
    requires IsGrid(g) && Full(g) && 0 <= k < SIZE
    ensures NoMergeablePair(LineOf(g, vertical, k)) <==>
      forall j :: 0 <= j < SIZE - 1 ==> LineOf(g, vertical, k)[j] != LineOf(g, vertical, k)[j + 1]
  {
  }

  /** When the game is over, no direction changes the board. */
  lemma {:induction false} StuckBoardDoesNotMove(g: Grid, direction: int)
    requires IsGrid(g) && Stuck(g)
    ensures Moved(g, direction) == g
  {
    if IsDirection(direction) {
      var v := IsVertical(direction);
      var h := Moved(g, direction);
      MovedLines(g, direction);
      forall k | 0 <= k < SIZE ensures LineOf(h, v, k) == LineOf(g, v, k) {
        StuckLineFixed(g, v, k);
      }
      forall r | 0 <= r < SIZE ensures h[r] == g[r] {
        if v {
          forall c | 0 <= c < SIZE ensures h[r][c] == g[r][c] {
            assert LineOf(h, v, c)[r] == h[r][c];
          }
        } else {
          assert LineOf(h, v, r) == h[r];
        }
      }
    }
  }

  /** On a board where the game is over, every line is left unchanged by both slides. */
  lemma {:induction false} StuckLineFixed(g: Grid, v: bool, k: int)
    requires IsGrid(g) && Stuck(g) && 0 <= k < SIZE
    ensures SlideFront(LineOf(g, v, k)) == LineOf(g, v, k)
    ensures SlideBack(LineOf(g, v, k)) == LineOf(g, v, k)
  {
    var l := LineOf(g, v, k);
    FullLinesPacked(g, v, k);
    FullLineNoPair(g, v, k);
    if v {
      assert forall j :: 0 <= j < SIZE ==> l[j] == g[j][k];
    }
    SlideFrontFixed(l);
    SlideBackFixed(l);
  }

  /**
   * A full board is stuck exactly when neither LEFT nor UP changes it; so the
   * game is over exactly when the board is full and no move changes it.
   */
  lemma {:induction false} StuckIffFullAndFixed(g: Grid)
    requires IsGrid(g)
    ensures Stuck(g) <==> Full(g) && Moved(g, LEFT) == g && Moved(g, UP) == g
  {
    if Stuck(g) {
      StuckBoardDoesNotMove(g, LEFT);
      StuckBoardDoesNotMove(g, UP);
    }
    if Full(g) && Moved(g, LEFT) == g && Moved(g, UP) == g {
      MovedLines(g, LEFT);
      MovedLines(g, UP);
      forall k | 0 <= k < SIZE
        ensures NoMergeablePair(g[k]) && NoMergeablePair(Col(g, k))
      {
        assert LineOf(Moved(g, LEFT), false, k) == g[k];
        SlideFrontFixed(g[k]);
        assert LineOf(Moved(g, UP), true, k) == Col(g, k);
        SlideFrontFixed(Col(g, k));
      }
      StuckFromLines(g);
    }
  }

  /** A full board whose rows and columns have no mergeable pair is stuck. */
  lemma {:induction false} StuckFromLines(g: Grid)
    requires IsGrid(g) && Full(g)
    requires forall k :: 0 <= k < SIZE ==> NoMergeablePair(g[k]) && NoMergeablePair(Col(g, k))
    ensures Stuck(g)
  {
    forall r, c {:trigger g[r][c]} | 0 <= r < SIZE - 1 && 0 <= c < SIZE
      ensures g[r][c] != g[r + 1][c]
    {
      assert Col(g, c)[r] == g[r][c] && Col(g, c)[r + 1] == g[r + 1][c];
    }
  }

  // ---------------------------------------------------------------------
  // Win
  // ---------------------------------------------------------------------

  /** The cells in row-major order (numpy's flattened view). */
  function Flatten(g: Grid): seq<int>
  {
    if g == [] then [] else g[0] + Flatten(g[1..])
  }

  lemma {:induction false} FlattenHas(g: Grid, x: int)
    ensures x in Flatten(g) <==> exists r, c :: 0 <= r < |g| && 0 <= c < |g[r]| && g[r][c] == x
  {
    if g != [] {
      FlattenHas(g[1..], x);
      if x in Flatten(g[1..]) {
        var r, c :| 0 <= r < |g[1..]| && 0 <= c < |g[1..][r]| && g[1..][r][c] == x;
        assert g[r + 1][c] == x;
      }
      if exists r, c :: 0 <= r < |g| && 0 <= c < |g[r]| && g[r][c] == x {
        var r, c :| 0 <= r < |g| && 0 <= c < |g[r]| && g[r][c] == x;
        if r == 0 {
          assert x in g[0];
        } else {
          assert g[1..][r - 1][c] == x;
        }
      }
    }
  }

  /** `is_win` (main_2048.py:110-114): some cell holds the winning value 2048. */
  function IsWin(g: Grid): (won: bool)
    requires IsGrid(g)
    ensures won <==> exists r, c :: 0 <= r < SIZE && 0 <= c < SIZE && g[r][c] == MAX_VALUE
  {
    FlattenHas(g, MAX_VALUE);
    MAX_VALUE in Flatten(g)
  }

  // ---------------------------------------------------------------------
  // Empty cells and spawning a tile
  // ---------------------------------------------------------------------

  /** Position of a cell in row-major order. */
  function Flat(p: (int, int)): int
  {
    p.0 * SIZE + p.1
  }

  predicate InBoard(p: (int, int))
  {
    0 <= p.0 < SIZE && 0 <= p.1 < SIZE
  }

  /** The empty cells at row-major positions `k` and later, in row-major order. */
  function EmptyCellsFrom(g: Grid, k: int): (cells: seq<(int, int)>)
    requires IsGrid(g) && 0 <= k <= SIZE * SIZE
    ensures forall i :: 0 <= i < |cells| ==>
      InBoard(cells[i]) && k <= Flat(cells[i]) && g[cells[i].0][cells[i].1] == EMPTY
    ensures forall r, c :: 0 <= r < SIZE && 0 <= c < SIZE && k <= Flat((r, c)) && g[r][c] == EMPTY ==>
      (r, c) in cells
    ensures forall i, j :: 0 <= i < j < |cells| ==> Flat(cells[i]) < Flat(cells[j])
    decreases SIZE * SIZE - k
  {
    if k == SIZE * SIZE then []
    else
      var rest := EmptyCellsFrom(g, k + 1);
      var p := (k / SIZE, k % SIZE);
      RowMajor(k);
      if g[p.0][p.1] == EMPTY then [p] + rest else rest
  }

  /** Row-major position `k` is the cell (k / SIZE, k % SIZE), and no other. */
  lemma {:induction false} RowMajor(k: int)
    requires 0 <= k < SIZE * SIZE
    ensures InBoard((k / SIZE, k % SIZE)) && Flat((k / SIZE, k % SIZE)) == k
    ensures forall r, c :: 0 <= r < SIZE && 0 <= c < SIZE && Flat((r, c)) == k ==> r == k / SIZE && c == k % SIZE
  {
  }

  /**
   * `get_empty_cells` (main_2048.py:29-33): the coordinates of every empty
   * cell, each once, in row-major order, and nothing else.
   */
  function EmptyCells(g: Grid): (cells: seq<(int, int)>)
    requires IsGrid(g)
    ensures forall i :: 0 <= i < |cells| ==> InBoard(cells[i]) && g[cells[i].0][cells[i].1] == EMPTY
    ensures forall r, c :: 0 <= r < SIZE && 0 <= c < SIZE && g[r][c] == EMPTY ==> (r, c) in cells
    ensures forall i, j :: 0 <= i < j < |cells| ==> Flat(cells[i]) < Flat(cells[j])
  {
    EmptyCellsFrom(g, 0)
  }

  /**
   * `add_new_tile` (main_2048.py:35-47) with its random draws as parameters:
   * `choice` is the index `random.choice` picks in the empty-cell list and
   * `drawBelow90` says whether `random.random() < 0.9`. On a board without an
   * empty cell it changes nothing; otherwise the chosen empty cell gets 2 or 4
   * and every other cell keeps its value.
   */
  function PlaceTile(g: Grid, choice: nat, drawBelow90: bool): (h: Grid)
    requires IsGrid(g)
    requires EmptyCells(g) == [] || choice < |EmptyCells(g)|
    ensures IsGrid(h)
    ensures EmptyCells(g) == [] ==> h == g
    ensures EmptyCells(g) != [] ==>
      var p := EmptyCells(g)[choice];
      && g[p.0][p.1] == EMPTY
      && h[p.0][p.1] == (if drawBelow90 then 2 else 4)
      && forall r, c :: 0 <= r < SIZE && 0 <= c < SIZE && (r, c) != p ==> h[r][c] == g[r][c]
  {
    var cells := EmptyCells(g);
    if cells == [] then g
    else
      var p := cells[choice];
      assert InBoard(p) && g[p.0][p.1] == EMPTY;
      g[p.0 := g[p.0][p.1 := if drawBelow90 then 2 else 4]]
  }

  lemma {:induction false} FlatPosition(k: int, p: (int, int))
    requires 0 <= k < SIZE * SIZE && InBoard(p)
    ensures InBoard((k / SIZE, k % SIZE)) && Flat((k / SIZE, k % SIZE)) == k
    ensures Flat(p) == k <==> p == (k / SIZE, k % SIZE)
  {
  }

  /** The number of empty cells at row-major positions `k` and later. */
  function EmptyCount(g: Grid, k: int): nat
    requires IsGrid(g) && 0 <= k <= SIZE * SIZE
    decreases SIZE * SIZE - k
  {
    if k == SIZE * SIZE then 0
    else (if g[k / SIZE][k % SIZE] == EMPTY then 1 else 0) + EmptyCount(g, k + 1)
  }

  /** The empty-cell list from position `k` on has one entry per empty cell there. */
  lemma {:induction false} EmptyCellsFromCount(g: Grid, k: int)
    requires IsGrid(g) && 0 <= k <= SIZE * SIZE
    ensures |EmptyCellsFrom(g, k)| == EmptyCount(g, k)
    decreases SIZE * SIZE - k
  {
    if k < SIZE * SIZE {
      EmptyCellsFromCount(g, k + 1);
    }
  }

  /** Writing a tile into one empty cell lowers the count of empty cells by exactly that cell. */
  lemma {:induction false} EmptyCountFill(g: Grid, h: Grid, p: (int, int), k: int)
    requires IsGrid(g) && IsGrid(h) && InBoard(p) && 0 <= k <= SIZE * SIZE
    requires g[p.0][p.1] == EMPTY && h[p.0][p.1] != EMPTY
    requires forall r, c :: 0 <= r < SIZE && 0 <= c < SIZE && (r, c) != p ==> h[r][c] == g[r][c]
    ensures EmptyCount(h, k) == EmptyCount(g, k) - (if k <= Flat(p) then 1 else 0)
    decreases SIZE * SIZE - k
  {
    if k < SIZE * SIZE {
      EmptyCountFill(g, h, p, k + 1);
      var q := (k / SIZE, k % SIZE);
      FlatPosition(k, p);
      assert EmptyCount(g, k) == (if g[q.0][q.1] == EMPTY then 1 else 0) + EmptyCount(g, k + 1);
      assert EmptyCount(h, k) == (if h[q.0][q.1] == EMPTY then 1 else 0) + EmptyCount(h, k + 1);
      if q == p {
        assert Flat(p) == k;
      } else {
        assert Flat(p) != k;
        assert h[q.0][q.1] == g[q.0][q.1];
      }
    }
  }

  /** Spawning on a board with n > 0 empty cells leaves n - 1 empty cells. */
  lemma {:induction false} PlaceTileEmptyCount(g: Grid, choice: nat, drawBelow90: bool)
    requires IsGrid(g)
    requires EmptyCells(g) == [] || choice < |EmptyCells(g)|
    ensures |EmptyCells(PlaceTile(g, choice, drawBelow90))|
      == if EmptyCells(g) == [] then 0 else |EmptyCells(g)| - 1
  {
    var h := PlaceTile(g, choice, drawBelow90);
    EmptyCellsFromCount(g, 0);
    EmptyCellsFromCount(h, 0);
    if EmptyCells(g) != [] {
      EmptyCountFill(g, h, EmptyCells(g)[choice], 0);
    }
  }

  lemma {:induction false} TotalUpdate(l: seq<int>, j: int, x: int, f: int -> int)
    requires 0 <= j < |l|
    ensures Total(l[j := x], f) == Total(l, f) - f(l[j]) + f(x)
  {
    if j > 0 {
      assert l[j := x][1..] == l[1..][j - 1 := x];
      TotalUpdate(l[1..], j - 1, x, f);
    }
  }

  lemma {:induction false} GridTotalUpdate(g: Grid, i: int, row: seq<int>, f: int -> int)
    requires 0 <= i < |g|
    ensures GridTotal(g[i := row], f) == GridTotal(g, f) - Total(g[i], f) + Total(row, f)
  {
    if i > 0 {
      assert g[i := row][1..] == g[1..][i - 1 := row];
      GridTotalUpdate(g[1..], i - 1, row, f);
    }
  }

  /** Spawning on a board with an empty cell adds exactly one tile. */
  lemma {:induction false} PlaceTileAddsOneTile(g: Grid, choice: nat, drawBelow90: bool)
    requires IsGrid(g)
    requires EmptyCells(g) == [] || choice < |EmptyCells(g)|
    ensures GridTotal(PlaceTile(g, choice, drawBelow90), Occupied)
      == GridTotal(g, Occupied) + (if EmptyCells(g) == [] then 0 else 1)
  {
    if EmptyCells(g) != [] {
      var p := EmptyCells(g)[choice];
      var x := if drawBelow90 then 2 else 4;
      assert PlaceTile(g, choice, drawBelow90) == g[p.0 := g[p.0][p.1 := x]];
      TotalUpdate(g[p.0], p.1, x, Occupied);
      GridTotalUpdate(g, p.0, g[p.0][p.1 := x], Occupied);
    }
  }

  /** A spawned tile is 2 or 4, so a board stays one whose tiles are powers of two. */
  lemma {:induction false} PlaceTileKeepsBoard(g: Grid, choice: nat, drawBelow90: bool)
    requires IsBoard(g)
    requires EmptyCells(g) == [] || choice < |EmptyCells(g)|
    ensures IsBoard(PlaceTile(g, choice, drawBelow90))
  {
    if EmptyCells(g) != [] {
      var x := if drawBelow90 then 2 else 4;
      assert IsCellValue(x) by {
        assert IsPowerOfTwo(1) && IsPowerOfTwo(2) && IsPowerOfTwo(4);
      }
      WriteKeepsBoard(g, PlaceTile(g, choice, drawBelow90), EmptyCells(g)[choice]);
    }
  }

  /** Changing one cell of a board to a cell value leaves a board. */
  lemma {:induction false} WriteKeepsBoard(g: Grid, h: Grid, p: (int, int))
    requires IsBoard(g) && IsGrid(h) && InBoard(p) && IsCellValue(h[p.0][p.1])
    requires forall r, c :: 0 <= r < SIZE && 0 <= c < SIZE && (r, c) != p ==> h[r][c] == g[r][c]
    ensures IsBoard(h)
  {
    forall r | 0 <= r < SIZE ensures AllCellValues(h[r]) {
      forall c | 0 <= c < SIZE ensures IsCellValue(h[r][c]) {
        if (r, c) != p {
          assert h[r][c] == g[r][c];
          assert AllCellValues(g[r]);
        }
      }
    }
  }
}
