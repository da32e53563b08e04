# 2048 game engine

A Dafny model of the engine of a console 2048 game (`main_2048.py`). The board
is a 4x4 grid of integers. `0` marks an empty cell; every other cell holds a
tile whose value is a power of two. The engine offers five operations:

- `move(board, direction)` slides every row (LEFT, RIGHT) or every column
  (UP, DOWN) toward one edge. Each line goes through three steps:
  - compact its tiles toward the leading edge;
  - make one merge pass from that edge, where an equal adjacent pair doubles
    the leading cell and clears the other;
  - compact again.
- `get_empty_cells` lists the empty positions.
- `add_new_tile` writes a 2 or a 4 into a randomly chosen empty cell.
- `is_game_over` reports that no cell is empty and no two neighbours are equal.
- `is_win` reports that some cell holds 2048.

The project has three modules:

- `Lines` (`lines.dfy`) models one line of cells.
  - `SlideFront` and `SlideBack` are what `move` does to a line whose leading
    edge is index 0 (UP, LEFT) or the last index (DOWN, RIGHT).
  - They are built from the compaction functions (`CompactFront`,
    `CompactBack`) and the literal merge passes (`MergeFront`, `MergeBack`).
  - `MergeTiles` states the game's rule independently, on the list of tiles
    alone: each tile takes part in at most one merge, and the pair nearest the
    leading edge merges first.
  - `SlideFrontStandard` proves that the three steps compute exactly that rule.
  - The sum, tile-count, power-of-two and fixed-point lemmas follow from it.
- `Grids` (`grids.dfy`) models the board as a value, `seq<seq<int>>`.
  - `Moved` describes `move`; `EmptyCells` describes `get_empty_cells`;
    `PlaceTile` describes `add_new_tile`; `Stuck` is the condition
    `is_game_over` tests; `IsWin` is `is_win`.
  - The grid lemmas cover conservation of the sum, line independence, the
    mirror and transpose relations between the four directions, and the
    facts about the game-over condition.
- `Engine` (`engine.dfy`) models the board as the mutable `array2<int>` the
  program changes in place.
  - `Move`, `AddNewTile` and `IsGameOver` are methods with the program's loops
    and cell writes.
  - Each is proved against its `Grids` counterpart. `Move` goes through a merge
    loop per line (`MergeForward`, `MergeBackward`), whose invariants tie the
    array to `MergeFront` and `MergeBack`.
  - The four branches of `move` are identical up to orientation, so one method
    `SlideLine`, parameterised by `vertical` and `forward`, stands for all four.

The two random draws of `add_new_tile` are parameters:

- `choice` is the index that `random.choice` picks in the empty-cell list;
- `drawBelow90` is the outcome of `random.random() < 0.9`.

## Model

| member | source | states |
|---|---|---|
| Engine.Move | main_2048.py:49-94 | the array afterwards equals `Moved` of its contents before, for every direction value; a value outside 1..4 leaves it unchanged |
| Engine.SlideAll | main_2048.py:54-93 | each `for i in range(SIZE)` loop of `move` (UP 55-63, DOWN 65-73, LEFT 75-83, RIGHT 85-93): every line of the chosen orientation becomes the slide of its old contents |
| Engine.SlideLine | main_2048.py:57-93 | one iteration of any of the four loops (57-63, 67-73, 77-83, 87-93): compact, merge and compact in place turn line k into `Slide(forward, old line)`; every other line is unchanged |
| Engine.MergeForward | main_2048.py:59-82 | the in-place merge loop from index 0 of UP (59-62) and LEFT (79-82) leaves line k equal to `MergeFront` of its old contents; other lines are unchanged |
| Engine.MergeBackward | main_2048.py:69-92 | the in-place merge loop from the last index down to 1 of DOWN (69-72) and RIGHT (89-92) leaves line k equal to `MergeBack` of its old contents; other lines are unchanged |
| Engine.SetCell | main_2048.py:61-92 | each single-cell write of the merge loops, `*= 2` and `= EMPTY` (61-62, 71-72, 81-82, 91-92), changes that one cell of line k and no other line |
| Engine.WriteLine | main_2048.py:57-93 | each slice assignment of a column (57, 63, 67, 73) or a row (77, 83, 87, 93) sets line k to the given values and no other line changes |
| Engine.AddNewTile | main_2048.py:35-47 | the array afterwards equals `PlaceTile` of its contents before, for the given draws |
| Engine.IsGameOver | main_2048.py:96-108 | the nested scan with early returns answers true exactly when the board is `Stuck` |
| Grids.IsWin | main_2048.py:110-114 | true exactly when some cell equals 2048 |
| Grids.EmptyCells | main_2048.py:29-33 | lists only empty, in-range cells; lists every empty cell; lists them in strictly increasing row-major order, so each appears once |
| Grids.PlaceTile | main_2048.py:43-47 | without an empty cell the board is unchanged; otherwise the chosen cell was empty and now holds 2 (draw below 0.9) or 4, and every other cell keeps its value |
| Grids.PlaceTileEmptyCount | main_2048.py:43-46 | a board with n > 0 empty cells has n - 1 afterwards; a full board stays at 0 |
| Grids.EmptyCellsFromCount | main_2048.py:29-33 | the empty-cell list from a row-major position on has one entry per empty cell there |
| Grids.EmptyCountFill | main_2048.py:43-46 | writing a tile into one empty cell lowers the count of empty cells from a position on by one exactly when that cell lies at or after the position |
| Grids.PlaceTileAddsOneTile | main_2048.py:43-46 | the number of tiles grows by exactly one when there was an empty cell, and not at all otherwise |
| Grids.PlaceTileKeepsBoard | main_2048.py:46 | a board whose cells are all empty or powers of two of at least 2 stays so |
| Grids.Moved | main_2048.py:49-94 | the value-level `move`: the result is again a 4x4 board; what it does to each line, and that any other direction value changes nothing, is stated by the lemmas below and by `Engine.Move` |
| Grids.MovedLines | main_2048.py:54-93 | each line of the moved board is the slide of the same line of the old board alone: lines are independent |
| Grids.MovedLineTotals | main_2048.py:54-93 | every line keeps its sum and does not gain a tile |
| Grids.MovedPacked | main_2048.py:63-93 | after LEFT or UP every line has its tiles before its empty cells; after RIGHT or DOWN its empty cells come first |
| Grids.MovedKeepsTotal | main_2048.py:54-93 | the sum of all cells is the same before and after `move`, for every direction value |
| Grids.MovedTileCount | main_2048.py:54-93 | `move` never increases the number of tiles |
| Grids.MovedKeepsBoard | main_2048.py:54-93 | if every cell is empty or a power of two of at least 2, so is every cell after `move` |
| Grids.MovedRightMirrorsLeft | main_2048.py:74-93 | RIGHT equals: mirror each row, move LEFT, mirror each row back |
| Grids.MovedUpTransposesLeft | main_2048.py:54-83 | UP equals LEFT on the transposed board, transposed back |
| Grids.MovedDownTransposesRight | main_2048.py:64-93 | DOWN equals RIGHT on the transposed board, transposed back |
| Grids.StuckHasNoEmptyCell | main_2048.py:35-108 | a board on which `is_game_over` answers true has no empty cell, so `add_new_tile` leaves it unchanged |
| Grids.StuckBoardDoesNotMove | main_2048.py:96-108 | on a board where the game is over, no direction value changes the board |
| Grids.StuckLineFixed | main_2048.py:96-108 | on a board where the game is over, neither slide changes any row or column |
| Grids.StuckIffFullAndFixed | main_2048.py:96-108 | the game is over exactly when the board is full and neither LEFT nor UP changes it |
| Lines.CompactFront | main_2048.py:57-83 | the compactions of UP and LEFT (57, 63, 77, 83) keep the line's length; `CompactKeepsTiles` and `CompactFrontPacked` state that the tiles keep their order and come first |
| Lines.CompactBack | main_2048.py:67-93 | the compactions of DOWN and RIGHT (67, 73, 87, 93) keep the line's length; `CompactKeepsTiles`, `CompactBackPacked` and `CompactBackMirror` state the rest |
| Lines.MergeFront | main_2048.py:59-82 | the forward merge loop (59-62, 79-82) keeps the line's length; `MergeFrontStep` ties it to the loop's steps and `MergeFrontOnCompacted` to the game's rule |
| Lines.MergeBack | main_2048.py:69-92 | the backward merge loop (69-72, 89-92) keeps the line's length; `MergeBackStep` ties it to the loop's steps and `MergeBackMirror` to the forward loop |
| Lines.SlideFront | main_2048.py:57-83 | the three steps of UP (57-63) and LEFT (77-83) keep the line's length; `SlideFrontStandard` and the `SlideFront*` lemmas state the result |
| Lines.SlideBack | main_2048.py:67-93 | the three steps of DOWN (67-73) and RIGHT (87-93) keep the line's length; `SlideBackMirror` and the `SlideBack*` lemmas state the result |
| Lines.CompactKeepsTiles | main_2048.py:57-93 | every compaction of `move` (57, 63, 67, 73, 77, 83, 87, 93), in either direction, keeps exactly the line's tiles, in their order |
| Lines.CompactFrontPacked | main_2048.py:57-83 | after the compactions of UP and LEFT (57, 63, 77, 83) every tile comes before every empty cell |
| Lines.CompactBackPacked | main_2048.py:67-93 | after the compactions of DOWN and RIGHT (67, 73, 87, 93) every empty cell comes before every tile |
| Lines.SlideFrontPacked | main_2048.py:57-83 | after the three steps of UP (57-63) or LEFT (77-83) every tile of the line comes before every empty cell |
| Lines.SlideBackPacked | main_2048.py:67-93 | after the three steps of DOWN (67-73) or RIGHT (87-93) every empty cell of the line comes before every tile |
| Lines.MergeFrontStep | main_2048.py:59-82 | one step j of the forward merge loop (UP 59-62, LEFT 79-82) keeps the line's eventual `MergeFront` result; the cells before j + 1 are then final |
| Lines.MergeBackStep | main_2048.py:69-92 | one step j of the backward merge loop (DOWN 69-72, RIGHT 89-92) keeps the line's eventual `MergeBack` result; the cells from j on are then final |
| Lines.MergeFrontZeros | main_2048.py:59-82 | the forward loop's "merges" of two empty cells (59-62, 79-82) change nothing |
| Lines.MergeFrontOnCompacted | main_2048.py:57-82 | on a compacted line the forward merge pass (59-62, 79-82) leaves exactly the tiles `MergeTiles` gives |
| Lines.MergeFrontOnCompactedPair | main_2048.py:59-82 | when the two leading tiles of a compacted line are equal, they become one tile of double value and the pass continues past the cleared cell |
| Lines.MergeFrontOnCompactedSingle | main_2048.py:59-82 | when the leading tile differs from the next, it stays and the pass continues from the next tile |
| Lines.CompactFrontOfMerged | main_2048.py:59-83 | compacting the forward merge pass's result on a compacted line (UP 59-63, LEFT 79-83) gives the rule's tiles followed by empty cells |
| Lines.SlideFrontStandard | main_2048.py:57-83 | the three steps of UP (57-63) and LEFT (77-83) equal the game's rule `MergeTiles` on the line's tiles, padded with empty cells: one merge per tile, from the leading edge |
| Lines.MergeTilesKeepsSum | main_2048.py:59-82 | the rule conserves the sum of the tiles |
| Lines.MergeTilesFixed | main_2048.py:59-82 | the rule leaves a list of tiles unchanged exactly when no two neighbours are equal |
| Lines.MergeTilesKeepsCellValues | main_2048.py:59-82 | doubling equal pairs keeps every value a power of two of at least 2 |
| Lines.SlideFrontKeepsSum | main_2048.py:57-83 | a slide toward index 0 (UP 57-63, LEFT 77-83) conserves the line's sum |
| Lines.SlideBackKeepsSum | main_2048.py:67-93 | a slide toward the end (DOWN 67-73, RIGHT 87-93) conserves the line's sum |
| Lines.SlideFrontTileCount | main_2048.py:57-83 | a slide toward index 0 (UP 57-63, LEFT 77-83) never adds a tile |
| Lines.SlideBackTileCount | main_2048.py:67-93 | a slide toward the end (DOWN 67-73, RIGHT 87-93) never adds a tile |
| Lines.SlideFrontKeepsCellValues | main_2048.py:57-83 | a slide toward index 0 keeps every cell empty or a power of two of at least 2 |
| Lines.SlideBackKeepsCellValues | main_2048.py:67-93 | a slide toward the end keeps every cell empty or a power of two of at least 2 |
| Lines.SlideFrontFixed | main_2048.py:57-83 | a slide toward index 0 (UP 57-63, LEFT 77-83) leaves a line unchanged exactly when it is compacted toward index 0 and no two neighbouring tiles are equal |
| Lines.SlideBackFixed | main_2048.py:67-93 | a slide toward the end (DOWN 67-73, RIGHT 87-93) leaves a line unchanged exactly when it is compacted toward the end and no two neighbouring tiles are equal |
| Lines.PackedBackMirror | main_2048.py:57-93 | a line is compacted toward the end (67, 87) exactly when its reverse is compacted toward index 0 (57, 77) |
| Lines.NoMergeablePairMirror | main_2048.py:59-92 | a line has an equal neighbouring pair, as the backward loop (69-72, 89-92) tests, exactly when its reverse has one, as the forward loop (59-62, 79-82) tests |
| Lines.CompactBackMirror | main_2048.py:57-93 | compacting toward the end (67, 87) is compacting the reversed line toward index 0 (57, 77), reversed back |
| Lines.MergeBackMirror | main_2048.py:59-92 | the backward merge loop (69-72, 89-92) is the forward loop (59-62, 79-82) on the reversed line, reversed back |
| Lines.SlideBackMirror | main_2048.py:57-93 | the slide toward the end (DOWN 67-73, RIGHT 87-93) is the slide toward index 0 (UP 57-63, LEFT 77-83) on the reversed line, reversed back |
| Lines.FourEqualTilesMergePairwise | main_2048.py:79-83 | row `[2,2,2,2]` moved LEFT gives `[4,4,0,0]` |
| Lines.ThreeEqualTilesMergeFromLeadingEdge | main_2048.py:77-83 | row `[2,2,2,0]` moved LEFT gives `[4,2,0,0]`: the pair nearest the leading edge merges, the third tile stays |
| Lines.ThreeEqualTilesMergeFromTrailingEdge | main_2048.py:87-93 | row `[2,2,2,0]` moved RIGHT gives `[0,0,2,4]` |
| Lines.CompactedLineStays | main_2048.py:77-83 | row `[2,0,0,0]` does not change when moved LEFT |

## Left out

- `main` (main_2048.py:116-160) is not modelled. It is the interactive driver: keyboard input, screen clearing, printing, sleeping, saving boards to files and exiting. Its order of checks, game over before win, belongs to the driver and not to the engine.
- `print_board` (main_2048.py:23-27) is not modelled; it is console output only.
- Random number generation is not modelled. `random.choice` and `random.random()` become the parameters `choice` and `drawBelow90`, so the 90%/10% split between 2 and 4 is not stated.
- numpy details are not modelled: the float zeros cast back into the integer board, boolean-mask indexing, `np.where` and `np.any`. They become sequence functions and plain loops with the same results.
- Engine.Move: cells are unbounded integers, so a 64-bit overflow of `*= 2` is not modelled. A board holds at most 16 tiles, so no reachable value comes near that limit.
- The unused constant `WIN_VALUE = 'inf'` (main_2048.py:19) is not modelled.
