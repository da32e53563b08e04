/**
 * The board of main_2048.py as the mutable 4x4 array it is there, and the
 * engine operations that change or scan it in place: `Move` for `move`,
 * `AddNewTile` for `add_new_tile` and `IsGameOver` for `is_game_over`. Each
 * is proved against its value-level description in module Grids.
 */
module Engine {
  import opened Lines
  import opened Grids

  predicate ValidBoard(b: array2<int>)
  {
    b.Length0 == SIZE && b.Length1 == SIZE
  }

  /** The board's current contents as a grid value. */
  function Cells(b: array2<int>): (g: Grid)
    requires ValidBoard(b)
    reads b
    ensures IsGrid(g)
  {
    seq(SIZE, r requires 0 <= r < SIZE reads b => seq(SIZE, c requires 0 <= c < SIZE reads b => b[r, c]))
  }

  /** Line `k` of the board: column `k` when `vertical`, row `k` otherwise. */
  function Line(b: array2<int>, vertical: bool, k: int): (l: seq<int>)
    requires ValidBoard(b) && 0 <= k < SIZE
    reads b
    ensures |l| == SIZE
    ensures l == LineOf(Cells(b), vertical, k)
  {
    seq(SIZE, j requires 0 <= j < SIZE reads b => if vertical then b[j, k] else b[k, j])
  }

  /**
   * Overwrites line `k` with `s`: the slice assignments `board[:, i] = ...`
   * and `board[i, :] = ...` of `move`. No other line changes.
   */
  method WriteLine(b: array2<int>, vertical: bool, k: int, s: seq<int>)
    requires ValidBoard(b) && 0 <= k < SIZE && |s| == SIZE
    modifies b
    ensures Line(b, vertical, k) == s
    ensures forall k' :: 0 <= k' < SIZE && k' != k ==> Line(b, vertical, k') == old(Line(b, vertical, k'))
  {
    if vertical {
      forall j | 0 <= j < SIZE {
        b[j, k] := s[j];
      }
    } else {
      forall j | 0 <= j < SIZE {
        b[k, j] := s[j];
      }
    }
  }

  /** Writes `x` at position `j` of line `k`. No other cell changes. */
  method SetCell(b: array2<int>, vertical: bool, k: int, j: int, x: int)
    requires ValidBoard(b) && 0 <= k < SIZE && 0 <= j < SIZE
    modifies b
    ensures Line(b, vertical, k) == old(Line(b, vertical, k))[j := x]
    ensures forall k' :: 0 <= k' < SIZE && k' != k ==> Line(b, vertical, k') == old(Line(b, vertical, k'))
  {
    if vertical {
      b[j, k] := x;
    } else {
      b[k, j] := x;
    }
  }

  /**
   * The merge loop of UP and LEFT (main_2048.py:59-62, 79-82), run in place
   * on line `k`.
   */
  method MergeForward(b: array2<int>, vertical: bool, k: int)
    requires ValidBoard(b) && 0 <= k < SIZE
    modifies b
    ensures Line(b, vertical, k) == MergeFront(old(Line(b, vertical, k)))
    ensures forall k' :: 0 <= k' < SIZE && k' != k ==> Line(b, vertical, k') == old(Line(b, vertical, k'))
  {
    ghost var start := Line(b, vertical, k);
    var j := 0;
    while j < SIZE - 1
      invariant 0 <= j <= SIZE - 1
      invariant MergeFront(start) == Line(b, vertical, k)[..j] + MergeFront(Line(b, vertical, k)[j..])
      invariant forall k' :: 0 <= k' < SIZE && k' != k ==> Line(b, vertical, k') == old(Line(b, vertical, k'))
    {
      ghost var before := Line(b, vertical, k);
      MergeFrontStep(before, j);
      var here := if vertical then b[j, k] else b[k, j];
      var next := if vertical then b[j + 1, k] else b[k, j + 1];
      if here == next {
        SetCell(b, vertical, k, j, 2 * here);
        SetCell(b, vertical, k, j + 1, EMPTY);
      }
      j := j + 1;
    }
    ghost var done := Line(b, vertical, k);
    assert done[..j] + done[j..] == done;
  }

  /**
   * The merge loop of DOWN and RIGHT (main_2048.py:69-72, 89-92), run in
   * place on line `k`, from the last index down to 1.
   */
  method MergeBackward(b: array2<int>, vertical: bool, k: int)
    requires ValidBoard(b) && 0 <= k < SIZE
    modifies b
    ensures Line(b, vertical, k) == MergeBack(old(Line(b, vertical, k)))
    ensures forall k' :: 0 <= k' < SIZE && k' != k ==> Line(b, vertical, k') == old(Line(b, vertical, k'))
  {
    ghost var start := Line(b, vertical, k);
    var j := SIZE - 1;
    assert start[..j + 1] == start && start[j + 1..] == [];
    while j > 0
      invariant 0 <= j <= SIZE - 1
      invariant MergeBack(start) == MergeBack(Line(b, vertical, k)[..j + 1]) + Line(b, vertical, k)[j + 1..]
      invariant forall k' :: 0 <= k' < SIZE && k' != k ==> Line(b, vertical, k') == old(Line(b, vertical, k'))
    {
      ghost var before := Line(b, vertical, k);
      MergeBackStep(before, j);
      var here := if vertical then b[j, k] else b[k, j];
      var next := if vertical then b[j - 1, k] else b[k, j - 1];
      if here == next {
        SetCell(b, vertical, k, j, 2 * here);
        SetCell(b, vertical, k, j - 1, EMPTY);
      }
      j := j - 1;
    }
    ghost var done := Line(b, vertical, k);
    assert done[..1] + done[1..] == done;
  }

  /**
   * One line's treatment in `move`: compact toward the leading edge, merge
   * once from that edge, compact again. Only line `k` changes.
   */
  method SlideLine(b: array2<int>, vertical: bool, forward: bool, k: int)
    requires ValidBoard(b) && 0 <= k < SIZE
    modifies b
    ensures Line(b, vertical, k) == Slide(forward, old(Line(b, vertical, k)))
    ensures forall k' :: 0 <= k' < SIZE && k' != k ==> Line(b, vertical, k') == old(Line(b, vertical, k'))
  {
    var line := Line(b, vertical, k);
    WriteLine(b, vertical, k, if forward then CompactFront(line) else CompactBack(line));
    if forward {
      MergeForward(b, vertical, k);
    } else {
      MergeBackward(b, vertical, k);
    }
    line := Line(b, vertical, k);
    WriteLine(b, vertical, k, if forward then CompactFront(line) else CompactBack(line));
  }

  /** The `for i in range(SIZE)` loop of one branch of `move`: every line in turn. */
  method SlideAll(b: array2<int>, vertical: bool, forward: bool)
    requires ValidBoard(b)
    modifies b
    ensures forall k :: 0 <= k < SIZE ==>
      LineOf(Cells(b), vertical, k) == Slide(forward, LineOf(old(Cells(b)), vertical, k))
  {
    ghost var g := Cells(b);
    assert forall k :: 0 <= k < SIZE ==> Line(b, vertical, k) == LineOf(g, vertical, k);
    for i := 0 to SIZE
      invariant forall k :: 0 <= k < i ==> Line(b, vertical, k) == Slide(forward, LineOf(g, vertical, k))
      invariant forall k :: i <= k < SIZE ==> Line(b, vertical, k) == LineOf(g, vertical, k)
    {
      SlideLine(b, vertical, forward, i);
    }
  }

  /**
   * `move(board, direction)` (main_2048.py:49-94), in place. The new board is
   * `Moved` of the old one; a direction outside 1..4 leaves it unchanged.
   */
  method Move(b: array2<int>, direction: int)
    requires ValidBoard(b)
    modifies b
    ensures Cells(b) == Moved(old(Cells(b)), direction)
  {
    ghost var g := Cells(b);
    if direction == UP {
      SlideAll(b, true, true);
    } else if direction == DOWN {
      SlideAll(b, true, false);
    } else if direction == LEFT {
      SlideAll(b, false, true);
    } else if direction == RIGHT {
      SlideAll(b, false, false);
    }
    if IsDirection(direction) {
      MovedLines(g, direction);
      LinesDetermineGrid(Cells(b), Moved(g, direction), IsVertical(direction));
    }
  }

  /**
   * `add_new_tile` (main_2048.py:35-47), in place, with its random draws as
   * parameters: `choice` indexes the empty-cell list and `drawBelow90` is the
   * outcome of `random.random() < 0.9`.
   */
  method AddNewTile(b: array2<int>, choice: nat, drawBelow90: bool)
    requires ValidBoard(b)
    requires EmptyCells(Cells(b)) == [] || choice < |EmptyCells(Cells(b))|
    modifies b
    ensures Cells(b) == PlaceTile(old(Cells(b)), choice, drawBelow90)
  {
    ghost var g := Cells(b);
    var cells := EmptyCells(Cells(b));
    if cells != [] {
      var p := cells[choice];
      var x := if drawBelow90 then 2 else 4;
      b[p.0, p.1] := x;
      ghost var h := g[p.0 := g[p.0][p.1 := x]];
      assert h == PlaceTile(g, choice, drawBelow90);
      forall r | 0 <= r < SIZE
        ensures Cells(b)[r] == h[r]
      {
        forall c | 0 <= c < SIZE
          ensures Cells(b)[r][c] == h[r][c]
        {
          if (r, c) != p {
            assert b[r, c] == old(b[r, c]) == g[r][c];
          }
        }
      }
      assert Cells(b) == h;
    }
  }

  /** Cell (r, c) is a tile that differs from its lower and its right neighbour. */
  predicate Settled(g: Grid, r: int, c: int)
    requires IsGrid(g) && 0 <= r < SIZE && 0 <= c < SIZE
  {
    && g[r][c] != EMPTY
    && (r < SIZE - 1 ==> g[r][c] != g[r + 1][c])
    && (c < SIZE - 1 ==> g[r][c] != g[r][c + 1])
  }

  /**
   * `is_game_over` (main_2048.py:96-108): scans the cells in row-major order
   * and answers false at the first empty cell or equal neighbour pair.
   */
  method IsGameOver(b: array2<int>) returns (over: bool)
    requires ValidBoard(b)
    ensures over <==> Stuck(Cells(b))
  {
    ghost var g := Cells(b);
    for i := 0 to SIZE
      invariant forall r, c :: 0 <= r < i && 0 <= c < SIZE ==> Settled(g, r, c)
    {
      for j := 0 to SIZE
        invariant forall r, c :: 0 <= r < i && 0 <= c < SIZE ==> Settled(g, r, c)
        invariant forall c :: 0 <= c < j ==> Settled(g, i, c)
      {
        if b[i, j] == EMPTY {
          assert g[i][j] == EMPTY;
          return false;
        }
        if i < SIZE - 1 && b[i, j] == b[i + 1, j] {
          assert g[i][j] == g[i + 1][j];
          return false;
        }
        if j < SIZE - 1 && b[i, j] == b[i, j + 1] {
          assert g[i][j] == g[i][j + 1];
          return false;
        }
      }
    }
    forall r, c | 0 <= r < SIZE && 0 <= c < SIZE
      ensures g[r][c] != EMPTY
      ensures r < SIZE - 1 ==> g[r][c] != g[r + 1][c]
      ensures c < SIZE - 1 ==> g[r][c] != g[r][c + 1]
    {
      assert Settled(g, r, c);
    }
    return true;
  }
}
