/**
 * One line of the 2048 board: a row or a column, indexed from one end.
 *
 * `move` in main_2048.py treats every line in three steps: compact the tiles
 * toward the leading edge, make one merge pass starting at that edge, and
 * compact again. `SlideFront` is that treatment when the leading edge is
 * index 0 (UP and LEFT), `SlideBack` when it is the last index (DOWN and
 * RIGHT). `MergeTiles` is an independent statement of the game's rule on the
 * list of tiles alone, and `SlideFrontStandard` shows the three steps compute it.
 */
module Lines {

  /** The value of an empty cell. */
  const EMPTY: int := 0

  // ---------------------------------------------------------------------
  // Basic sequence helpers
  // ---------------------------------------------------------------------

  /** `n` empty cells: the `np.zeros(...)` block that compaction appends. */
  function Zeros(n: nat): (z: seq<int>)
    ensures |z| == n
    ensures forall k :: 0 <= k < n ==> z[k] == EMPTY
  {
    seq(n, _ => EMPTY)
  }

  /** The occupied cells of a line in their order: the mask `line != EMPTY`. */
  function NonZeros(l: seq<int>): (t: seq<int>)
    ensures |t| <= |l|
    ensures forall k :: 0 <= k < |t| ==> t[k] != EMPTY
  {
    if l == [] then []
    else if l[0] == EMPTY then NonZeros(l[1..])
    else [l[0]] + NonZeros(l[1..])
  }

  /** A line read from its other end. */
  function Reverse(l: seq<int>): (r: seq<int>)
    ensures |r| == |l|
  {
    seq(|l|, k requires 0 <= k < |l| => l[|l| - 1 - k])
  }

  /** Sum of `f` over the cells of a line. */
  function Total(l: seq<int>, f: int -> int): int
  {
    if l == [] then 0 else f(l[0]) + Total(l[1..], f)
  }

  /** The value a cell contributes to the board's sum. */
  function Value(x: int): int { x }

  /** 1 for a tile, 0 for an empty cell: `Total(l, Occupied)` counts tiles. */
  function Occupied(x: int): int { if x == EMPTY then 0 else 1 }

  predicate IsPowerOfTwo(x: int)
  {
    x == 1 || (x > 1 && x % 2 == 0 && IsPowerOfTwo(x / 2))
  }

  /** A value a 2048 cell may hold: empty, or a power of two of at least 2. */
  predicate IsCellValue(x: int)
  {
    x == EMPTY || (x >= 2 && IsPowerOfTwo(x))
  }

  predicate AllCellValues(l: seq<int>)
  {
    forall k :: 0 <= k < |l| ==> IsCellValue(l[k])
  }

  predicate AllTiles(xs: seq<int>)
  {
    forall k :: 0 <= k < |xs| ==> xs[k] != EMPTY
  }

  /** Every tile comes before every empty cell (the line is slid toward index 0). */
  predicate PackedFront(l: seq<int>)
  {
    forall a, b :: 0 <= a < b < |l| && l[a] == EMPTY ==> l[b] == EMPTY
  }

  /** Every empty cell comes before every tile (the line is slid toward its end). */
  predicate PackedBack(l: seq<int>)
  {
    forall a, b :: 0 <= a < b < |l| && l[a] != EMPTY ==> l[b] != EMPTY
  }

  /** No tile has an equal neighbour, so no merge is possible along the line. */
  predicate NoMergeablePair(l: seq<int>)
  {
    forall k :: 0 <= k < |l| - 1 && l[k] != EMPTY ==> l[k] != l[k + 1]
  }

  // ---------------------------------------------------------------------
  // The three steps of `move`, for each orientation
  // ---------------------------------------------------------------------

  /**
   * Compaction toward index 0: the tiles in order, then as many zeros as
   * there were empty cells (main_2048.py:57, 63, 77, 83).
   */
  function CompactFront(l: seq<int>): (c: seq<int>)
    ensures |c| == |l|
  {
    var tiles := NonZeros(l);
    tiles + Zeros(|l| - |tiles|)
  }

  /**
   * Compaction toward the last index: zeros first, then the tiles in order
   * (main_2048.py:67, 73, 87, 93).
   */
  function CompactBack(l: seq<int>): (c: seq<int>)
    ensures |c| == |l|
  {
    var tiles := NonZeros(l);
    Zeros(|l| - |tiles|) + tiles
  }

  /** Compaction keeps the tiles of the line, in their order. */
  lemma {:induction false} CompactKeepsTiles(l: seq<int>)
    ensures NonZeros(CompactFront(l)) == NonZeros(l)
    ensures NonZeros(CompactBack(l)) == NonZeros(l)
  {
    var tiles := NonZeros(l);
    var n := |l| - |tiles|;
    NonZerosAppend(tiles, Zeros(n));
    NonZerosAppend(Zeros(n), tiles);
    NonZerosOfTiles(tiles);
    NonZerosOfZeros(n);
  }

  /** After compaction toward index 0, every tile comes before every empty cell. */
  lemma {:induction false} CompactFrontPacked(l: seq<int>)
    ensures PackedFront(CompactFront(l))
  {
    var tiles := NonZeros(l);
    var c := tiles + Zeros(|l| - |tiles|);
    assert forall k :: 0 <= k < |tiles| ==> c[k] != EMPTY;
    assert forall k :: |tiles| <= k < |c| ==> c[k] == EMPTY;
  }

  /** After compaction toward the end, every empty cell comes before every tile. */
  lemma {:induction false} CompactBackPacked(l: seq<int>)
    ensures PackedBack(CompactBack(l))
  {
    var tiles := NonZeros(l);
    var n := |l| - |tiles|;
    var c := Zeros(n) + tiles;
    assert forall k :: 0 <= k < n ==> c[k] == EMPTY;
    assert forall k :: n <= k < |c| ==> c[k] != EMPTY;
  }

  /** A slide toward index 0 leaves the line compacted toward index 0. */
  lemma {:induction false} SlideFrontPacked(l: seq<int>)
    ensures PackedFront(SlideFront(l))
  {
    CompactFrontPacked(MergeFront(CompactFront(l)));
  }

  /** A slide toward the end leaves the line compacted toward the end. */
  lemma {:induction false} SlideBackPacked(l: seq<int>)
    ensures PackedBack(SlideBack(l))
  {
    CompactBackPacked(MergeBack(CompactBack(l)));
  }

  /**
   * The merge pass from index 0 (main_2048.py:59-62, 79-82): at step j, if
   * cells j and j+1 are equal, cell j doubles and cell j+1 is cleared; then
   * step j+1 looks at the cleared cell. Two empty cells "merge" as well,
   * which changes nothing.
   */
  function MergeFront(l: seq<int>): (m: seq<int>)
    ensures |m| == |l|
    decreases |l|
  {
    if |l| < 2 then l
    else if l[0] == l[1] then [2 * l[0]] + MergeFront([EMPTY] + l[2..])
    else [l[0]] + MergeFront(l[1..])
  }

  /**
   * The merge pass from the last index (main_2048.py:69-72, 89-92): at step
   * j, going down from the end, if cells j and j-1 are equal, cell j doubles
   * and cell j-1 is cleared.
   */
  function MergeBack(l: seq<int>): (m: seq<int>)
    ensures |m| == |l|
    decreases |l|
  {
    if |l| < 2 then l
    else if l[|l| - 1] == l[|l| - 2] then MergeBack(l[..|l| - 2] + [EMPTY]) + [2 * l[|l| - 1]]
    else MergeBack(l[..|l| - 1]) + [l[|l| - 1]]
  }

  /** What `move` does to one line whose leading edge is index 0 (UP, LEFT). */
  function SlideFront(l: seq<int>): (s: seq<int>)
    ensures |s| == |l|
  {
    CompactFront(MergeFront(CompactFront(l)))
  }

  /** What `move` does to one line whose leading edge is its last index (DOWN, RIGHT). */
  function SlideBack(l: seq<int>): (s: seq<int>)
    ensures |s| == |l|
  {
    CompactBack(MergeBack(CompactBack(l)))
  }

  /** The slide toward index 0 when `forward`, toward the end otherwise. */
  function Slide(forward: bool, l: seq<int>): seq<int>
  {
    if forward then SlideFront(l) else SlideBack(l)
  }

  /**
   * The game's rule stated on the tiles alone, read from the leading edge:
   * an equal leading pair becomes one tile of double value and the scan
   * continues after the pair, so no tile takes part in two merges.
   */
  function MergeTiles(xs: seq<int>): (ys: seq<int>)
    ensures |ys| <= |xs|
  {
    if |xs| < 2 then xs
    else if xs[0] == xs[1] then [2 * xs[0]] + MergeTiles(xs[2..])
    else [xs[0]] + MergeTiles(xs[1..])
  }

  // ---------------------------------------------------------------------
  // Facts about NonZeros, Zeros, Total and Reverse
  // ---------------------------------------------------------------------

  lemma {:induction false} NonZerosAppend(a: seq<int>, b: seq<int>)
    ensures NonZeros(a + b) == NonZeros(a) + NonZeros(b)
  {
    if a == [] {
      assert a + b == b;
    } else {
      assert (a + b)[0] == a[0];
      assert (a + b)[1..] == a[1..] + b;
      NonZerosAppend(a[1..], b);
    }
  }

  lemma {:induction false} NonZerosOfTiles(xs: seq<int>)
    requires AllTiles(xs)
    ensures NonZeros(xs) == xs
  {
    if xs != [] {
      NonZerosOfTiles(xs[1..]);
      assert xs == [xs[0]] + xs[1..];
    }
  }

  lemma {:induction false} NonZerosOfZeros(n: nat)
    ensures NonZeros(Zeros(n)) == []
  {
    if n > 0 {
      assert Zeros(n)[1..] == Zeros(n - 1);
      NonZerosOfZeros(n - 1);
    }
  }

  lemma {:induction false} TotalAppend(a: seq<int>, b: seq<int>, f: int -> int)
    ensures Total(a + b, f) == Total(a, f) + Total(b, f)
  {
    if a == [] {
      assert a + b == b;
    } else {
      assert (a + b)[0] == a[0];
      assert (a + b)[1..] == a[1..] + b;
      TotalAppend(a[1..], b, f);
    }
  }

  lemma {:induction false} TotalZeros(n: nat, f: int -> int)
    requires f(EMPTY) == 0
    ensures Total(Zeros(n), f) == 0
  {
    if n > 0 {
      assert Zeros(n)[1..] == Zeros(n - 1);
      TotalZeros(n - 1, f);
    }
  }

  /** Dropping the empty cells does not change the sum of a line. */
  lemma {:induction false} NonZerosKeepsSum(l: seq<int>)
    ensures Total(NonZeros(l), Value) == Total(l, Value)
  {
    if l != [] {
      NonZerosKeepsSum(l[1..]);
      if l[0] != EMPTY {
        TotalAppend([l[0]], NonZeros(l[1..]), Value);
      }
    }
  }

  /** `Total(l, Occupied)` is the number of tiles in the line. */
  lemma {:induction false} OccupiedCountsTiles(l: seq<int>)
    ensures Total(l, Occupied) == |NonZeros(l)|
  {
    if l != [] {
      OccupiedCountsTiles(l[1..]);
    }
  }

  lemma {:induction false} TotalReverse(l: seq<int>, f: int -> int)
    ensures Total(Reverse(l), f) == Total(l, f)
  {
    if l != [] {
      var t := l[1..];
      assert Reverse(l) == Reverse(t) + [l[0]];
      TotalAppend(Reverse(t), [l[0]], f);
      TotalReverse(t, f);
    }
  }

  lemma {:induction false} ReverseAppend(a: seq<int>, b: seq<int>)
    ensures Reverse(a + b) == Reverse(b) + Reverse(a)
  {
  }

  lemma {:induction false} ReverseZeros(n: nat)
    ensures Reverse(Zeros(n)) == Zeros(n)
  {
  }

  lemma {:induction false} ReverseReverse(l: seq<int>)
    ensures Reverse(Reverse(l)) == l
  {
  }

  lemma {:induction false} NonZerosReverse(l: seq<int>)
    ensures NonZeros(Reverse(l)) == Reverse(NonZeros(l))
  {
    if l != [] {
      var t := l[1..];
      assert l == [l[0]] + t;
      assert Reverse(l) == Reverse(t) + [l[0]];
      NonZerosAppend(Reverse(t), [l[0]]);
      NonZerosReverse(t);
      assert [l[0]][1..] == [];
      assert NonZeros(l) == NonZeros([l[0]]) + NonZeros(t);
      ReverseAppend(NonZeros([l[0]]), NonZeros(t));
    }
  }

  // ---------------------------------------------------------------------
  // One step of each merge loop
  // ---------------------------------------------------------------------

  /**
   * Step j of the merge loop toward index 0, on a line whose cells before j
   * are final: after the step, the cells before j+1 are final and the pass
   * still ends in the same line.
   */
  lemma {:induction false} MergeFrontStep(l: seq<int>, j: int)
    requires 0 <= j < |l| - 1
    ensures var next := if l[j] == l[j + 1] then l[j := 2 * l[j]][j + 1 := EMPTY] else l;
      l[..j] + MergeFront(l[j..]) == next[..j + 1] + MergeFront(next[j + 1..])
  {
    var t := l[j..];
    assert t[0] == l[j] && t[1] == l[j + 1];
    if l[j] == l[j + 1] {
      var next := l[j := 2 * l[j]][j + 1 := EMPTY];
      assert MergeFront(t) == [2 * l[j]] + MergeFront([EMPTY] + t[2..]);
      assert [EMPTY] + t[2..] == next[j + 1..];
      assert next[..j + 1] == l[..j] + [2 * l[j]];
    } else {
      assert MergeFront(t) == [l[j]] + MergeFront(t[1..]);
      assert t[1..] == l[j + 1..];
      assert l[..j + 1] == l[..j] + [l[j]];
    }
  }

  /**
   * Step j of the merge loop toward the last index, on a line whose cells
   * after j are final: after the step, the cells from j on are final.
   */
  lemma {:induction false} MergeBackStep(l: seq<int>, j: int)
    requires 1 <= j < |l|
    ensures var next := if l[j] == l[j - 1] then l[j := 2 * l[j]][j - 1 := EMPTY] else l;
      MergeBack(l[..j + 1]) + l[j + 1..] == MergeBack(next[..j]) + next[j..]
  {
    var t := l[..j + 1];
    assert t[|t| - 1] == l[j] && t[|t| - 2] == l[j - 1];
    if l[j] == l[j - 1] {
      var next := l[j := 2 * l[j]][j - 1 := EMPTY];
      assert t[..|t| - 2] + [EMPTY] == next[..j];
      assert next[j..] == [2 * l[j]] + l[j + 1..];
    } else {
      assert t[..|t| - 1] == l[..j];
      assert l[j..] == [l[j]] + l[j + 1..];
    }
  }

  // ---------------------------------------------------------------------
  // The merge pass computes the game's rule
  // ---------------------------------------------------------------------

  lemma {:induction false} MergeFrontZeros(n: nat)
    ensures MergeFront(Zeros(n)) == Zeros(n)
  {
    if n >= 2 {
      assert ([EMPTY] + Zeros(n)[2..]) == Zeros(n - 1);
      MergeFrontZeros(n - 1);
    }
  }

  /**
   * On a compacted line (tiles `xs`, then `n` zeros), the tiles left by the
   * merge pass are exactly `MergeTiles(xs)`.
   */
  lemma {:induction false} MergeFrontOnCompacted(xs: seq<int>, n: nat)
    requires AllTiles(xs)
    ensures NonZeros(MergeFront(xs + Zeros(n))) == MergeTiles(xs)
    decreases |xs|
  {
    var l := xs + Zeros(n);
    if xs == [] {
      assert l == Zeros(n);
      MergeFrontZeros(n);
      NonZerosOfZeros(n);
    } else if |l| < 2 {
      assert l == xs;
      NonZerosOfTiles(xs);
    } else if |xs| == 1 {
      // a single tile followed by zeros: it never equals its empty neighbour
      assert l[1] == EMPTY;
      assert l[1..] == Zeros(n);
      MergeFrontZeros(n);
      NonZerosAppend([xs[0]], MergeFront(Zeros(n)));
      NonZerosOfZeros(n);
      NonZerosOfTiles([xs[0]]);
    } else if xs[0] == xs[1] {
      MergeFrontOnCompacted(xs[2..], n);
      MergeFrontOnCompactedPair(xs, n);
    } else {
      MergeFrontOnCompacted(xs[1..], n);
      MergeFrontOnCompactedSingle(xs, n);
    }
  }

  /** The step of MergeFrontOnCompacted where the two leading tiles are equal and merge. */
  lemma {:induction false} MergeFrontOnCompactedPair(xs: seq<int>, n: nat)
    requires AllTiles(xs) && |xs| >= 2 && xs[0] == xs[1]
    requires NonZeros(MergeFront(xs[2..] + Zeros(n))) == MergeTiles(xs[2..])
    ensures NonZeros(MergeFront(xs + Zeros(n))) == MergeTiles(xs)
  {
    var l := xs + Zeros(n);
    var rest := xs[2..];
    assert l[2..] == rest + Zeros(n);
    var after := [EMPTY] + rest + Zeros(n);
    assert l[0] == xs[0] && l[1] == xs[1];
    assert [EMPTY] + l[2..] == after;
    assert MergeFront(l) == [2 * xs[0]] + MergeFront(after);
    NonZerosAppend([2 * xs[0]], MergeFront(after));
    NonZerosOfTiles([2 * xs[0]]);
    if rest == [] {
      assert after == Zeros(n + 1);
      MergeFrontZeros(n + 1);
      NonZerosOfZeros(n + 1);
    } else {
      // the cleared cell never equals the tile after it
      assert after[0] == EMPTY && after[1] == rest[0];
      assert after[1..] == rest + Zeros(n);
      assert MergeFront(after) == [EMPTY] + MergeFront(rest + Zeros(n));
      NonZerosAppend([EMPTY], MergeFront(rest + Zeros(n)));
      assert NonZeros([EMPTY]) == NonZeros([EMPTY][1..]);
    }
  }

  /** The step of MergeFrontOnCompacted where the leading tile differs from the next and stays. */
  lemma {:induction false} MergeFrontOnCompactedSingle(xs: seq<int>, n: nat)
    requires AllTiles(xs) && |xs| >= 2 && xs[0] != xs[1]
    requires NonZeros(MergeFront(xs[1..] + Zeros(n))) == MergeTiles(xs[1..])
    ensures NonZeros(MergeFront(xs + Zeros(n))) == MergeTiles(xs)
  {
    var l := xs + Zeros(n);
    var rest := xs[1..];
    assert l[1..] == rest + Zeros(n);
    assert MergeFront(l) == [xs[0]] + MergeFront(rest + Zeros(n));
    NonZerosAppend([xs[0]], MergeFront(rest + Zeros(n)));
    NonZerosOfTiles([xs[0]]);
  }

  /**
   * The three steps of `move` on a line implement the game's rule: the
   * result is `MergeTiles` of the line's tiles, followed by empty cells.
   * So `[2,2,2,2]` becomes `[4,4,0,0]` and `[2,2,2,0]` becomes `[4,2,0,0]`.
   */
  lemma {:induction false} SlideFrontStandard(l: seq<int>)
    ensures SlideFront(l) == MergeTiles(NonZeros(l)) + Zeros(|l| - |MergeTiles(NonZeros(l))|)
  {
    SlideFrontOfCompacted(l, NonZeros(l));
    CompactFrontOfMerged(NonZeros(l), l);
  }

  /** A slide toward index 0 is the merge pass on the compacted line, compacted again. */
  lemma {:induction false} SlideFrontOfCompacted(l: seq<int>, xs: seq<int>)
    requires xs == NonZeros(l)
    ensures SlideFront(l) == CompactFront(MergeFront(xs + Zeros(|l| - |xs|)))
  {
  }

  /**
   * On a line with the length of `l` holding the tiles `xs` and then zeros,
   * compacting the merge pass's result gives the rule's tiles, then zeros.
   */
  lemma {:induction false} CompactFrontOfMerged(xs: seq<int>, l: seq<int>)
    requires AllTiles(xs) && |xs| <= |l|
    ensures CompactFront(MergeFront(xs + Zeros(|l| - |xs|))) == MergeTiles(xs) + Zeros(|l| - |MergeTiles(xs)|)
  {
    MergeFrontOnCompacted(xs, |l| - |xs|);
  }

  // ---------------------------------------------------------------------
  // Properties of the game's rule
  // ---------------------------------------------------------------------

  lemma {:induction false} MergeTilesKeepsSum(xs: seq<int>)
    ensures Total(MergeTiles(xs), Value) == Total(xs, Value)
  {
    if |xs| >= 2 {
      if xs[0] == xs[1] {
        MergeTilesKeepsSum(xs[2..]);
        assert xs[1..][1..] == xs[2..];
      } else {
        MergeTilesKeepsSum(xs[1..]);
      }
    }
  }

  lemma {:induction false} MergeTilesAreTiles(xs: seq<int>)
    requires AllTiles(xs)
    ensures AllTiles(MergeTiles(xs))
  {
    if |xs| >= 2 {
      if xs[0] == xs[1] {
        MergeTilesAreTiles(xs[2..]);
      } else {
        MergeTilesAreTiles(xs[1..]);
      }
    }
  }

  /** Merging only doubles an equal pair, so powers of two stay powers of two. */
  lemma {:induction false} MergeTilesKeepsCellValues(xs: seq<int>)
    requires AllCellValues(xs)
    ensures AllCellValues(MergeTiles(xs))
  {
    if |xs| >= 2 {
      if xs[0] == xs[1] {
        MergeTilesKeepsCellValues(xs[2..]);
        assert IsCellValue(2 * xs[0]);
      } else {
        MergeTilesKeepsCellValues(xs[1..]);
      }
    }
  }

  /** The rule changes a list of tiles exactly when two neighbours are equal. */
  lemma {:induction false} MergeTilesFixed(xs: seq<int>)
    requires AllTiles(xs)
    ensures MergeTiles(xs) == xs <==> NoMergeablePair(xs)
  {
    if |xs| >= 2 {
      if xs[0] == xs[1] {
        assert |MergeTiles(xs)| < |xs|;
        assert !NoMergeablePair(xs);
      } else {
        MergeTilesFixed(xs[1..]);
        assert NoMergeablePair(xs) <==> NoMergeablePair(xs[1..]) by {
          if NoMergeablePair(xs[1..]) {
            forall k | 0 <= k < |xs| - 1 && xs[k] != EMPTY ensures xs[k] != xs[k + 1] {
              if k > 0 { assert xs[1..][k - 1] == xs[k]; }
            }
          }
          if NoMergeablePair(xs) {
            forall k | 0 <= k < |xs[1..]| - 1 && xs[1..][k] != EMPTY
              ensures xs[1..][k] != xs[1..][k + 1]
            {
              assert xs[k + 1] != xs[k + 2];
            }
          }
        }
        assert MergeTiles(xs) == [xs[0]] + MergeTiles(xs[1..]);
        assert xs == [xs[0]] + xs[1..];
      }
    }
  }

  // ---------------------------------------------------------------------
  // Properties of one slide toward index 0
  // ---------------------------------------------------------------------

  /** A slide conserves the sum of the line. */
  lemma {:induction false} SlideFrontKeepsSum(l: seq<int>)
    ensures Total(SlideFront(l), Value) == Total(l, Value)
  {
    var ys := MergeTiles(NonZeros(l));
    SlideFrontStandard(l);
    TotalAppend(ys, Zeros(|l| - |ys|), Value);
    TotalZeros(|l| - |ys|, Value);
    MergeTilesKeepsSum(NonZeros(l));
    NonZerosKeepsSum(l);
  }

  /** A slide never adds a tile to the line. */
  lemma {:induction false} SlideFrontTileCount(l: seq<int>)
    ensures Total(SlideFront(l), Occupied) <= Total(l, Occupied)
  {
    var ys := MergeTiles(NonZeros(l));
    SlideFrontStandard(l);
    TotalAppend(ys, Zeros(|l| - |ys|), Occupied);
    TotalZeros(|l| - |ys|, Occupied);
    MergeTilesAreTiles(NonZeros(l));
    NonZerosOfTiles(ys);
    OccupiedCountsTiles(ys);
    OccupiedCountsTiles(l);
  }

  /** If every cell is empty or a power of two of at least 2, so is every cell after a slide. */
  lemma {:induction false} SlideFrontKeepsCellValues(l: seq<int>)
    requires AllCellValues(l)
    ensures AllCellValues(SlideFront(l))
  {
    var xs := NonZeros(l);
    assert AllCellValues(xs) by {
      NonZerosAreCellValues(l);
    }
    MergeTilesKeepsCellValues(xs);
    SlideFrontStandard(l);
  }

  lemma {:induction false} NonZerosAreCellValues(l: seq<int>)
    requires AllCellValues(l)
    ensures AllCellValues(NonZeros(l))
  {
    if l != [] {
      NonZerosAreCellValues(l[1..]);
    }
  }

  lemma {:induction false} PackedFrontSplit(l: seq<int>)
    requires PackedFront(l)
    ensures l == NonZeros(l) + Zeros(|l| - |NonZeros(l)|)
  {
    var k := 0;
    while k < |l| && l[k] != EMPTY
      invariant 0 <= k <= |l|
      invariant AllTiles(l[..k])
    {
      k := k + 1;
    }
    assert l == l[..k] + l[k..];
    assert l[k..] == Zeros(|l| - k);
    NonZerosAppend(l[..k], l[k..]);
    NonZerosOfTiles(l[..k]);
    NonZerosOfZeros(|l| - k);
  }

  /**
   * A slide toward index 0 leaves a line unchanged exactly when the line is
   * already compacted toward that edge and no two neighbouring tiles are equal.
   */
  lemma {:induction false} SlideFrontFixed(l: seq<int>)
    ensures SlideFront(l) == l <==> PackedFront(l) && NoMergeablePair(l)
  {
    var xs := NonZeros(l);
    var ys := MergeTiles(xs);
    SlideFrontStandard(l);
    MergeTilesAreTiles(xs);
    if SlideFront(l) == l {
      SlideFrontPacked(l);
      assert PackedFront(l);
      PackedFrontSplit(l);
      // the tiles of both sides agree
      NonZerosAppend(ys, Zeros(|l| - |ys|));
      NonZerosOfTiles(ys);
      NonZerosOfZeros(|l| - |ys|);
      assert ys == xs;
      MergeTilesFixed(xs);
      forall k | 0 <= k < |l| - 1 && l[k] != EMPTY ensures l[k] != l[k + 1] {
        if k + 1 < |xs| {
          assert l[k] == xs[k] && l[k + 1] == xs[k + 1];
        }
      }
    }
    if PackedFront(l) && NoMergeablePair(l) {
      PackedFrontSplit(l);
      assert NoMergeablePair(xs) by {
        forall k | 0 <= k < |xs| - 1 && xs[k] != EMPTY ensures xs[k] != xs[k + 1] {
          assert l[k] == xs[k] && l[k + 1] == xs[k + 1];
        }
      }
      MergeTilesFixed(xs);
    }
  }

  // ---------------------------------------------------------------------
  // The slide toward the end is the mirror image of the slide toward index 0
  // ---------------------------------------------------------------------

  lemma {:induction false} CompactBackMirror(l: seq<int>)
    ensures CompactBack(l) == Reverse(CompactFront(Reverse(l)))
  {
    var n := |l| - |NonZeros(l)|;
    NonZerosReverse(l);
    ReverseAppend(Reverse(NonZeros(l)), Zeros(n));
    ReverseZeros(n);
    ReverseReverse(NonZeros(l));
  }

  lemma {:induction false} MergeBackMirror(l: seq<int>)
    ensures MergeBack(l) == Reverse(MergeFront(Reverse(l)))
    decreases |l|
  {
    var n := |l|;
    if n >= 2 {
      var r := Reverse(l);
      assert r[0] == l[n - 1] && r[1] == l[n - 2];
      if l[n - 1] == l[n - 2] {
        var shorter := l[..n - 2] + [EMPTY];
        assert [EMPTY] + r[2..] == Reverse(shorter);
        MergeBackMirror(shorter);
        ReverseAppend([2 * l[n - 1]], MergeFront(Reverse(shorter)));
      } else {
        var shorter := l[..n - 1];
        assert r[1..] == Reverse(shorter);
        MergeBackMirror(shorter);
        ReverseAppend([l[n - 1]], MergeFront(Reverse(shorter)));
      }
    }
  }

  /** Sliding toward the end is: reverse the line, slide toward index 0, reverse back. */
  lemma {:induction false} SlideBackMirror(l: seq<int>)
    ensures SlideBack(l) == Reverse(SlideFront(Reverse(l)))
  {
    var c1 := CompactFront(Reverse(l));
    CompactBackMirror(l);
    MergeBackMirror(Reverse(c1));
    ReverseReverse(c1);
    var m := MergeFront(c1);
    CompactBackMirror(Reverse(m));
    ReverseReverse(m);
  }

  lemma {:induction false} SlideBackKeepsSum(l: seq<int>)
    ensures Total(SlideBack(l), Value) == Total(l, Value)
  {
    SlideBackMirror(l);
    TotalReverse(SlideFront(Reverse(l)), Value);
    SlideFrontKeepsSum(Reverse(l));
    TotalReverse(l, Value);
  }

  lemma {:induction false} SlideBackTileCount(l: seq<int>)
    ensures Total(SlideBack(l), Occupied) <= Total(l, Occupied)
  {
    SlideBackMirror(l);
    TotalReverse(SlideFront(Reverse(l)), Occupied);
    SlideFrontTileCount(Reverse(l));
    TotalReverse(l, Occupied);
  }

  lemma {:induction false} SlideBackKeepsCellValues(l: seq<int>)
    requires AllCellValues(l)
    ensures AllCellValues(SlideBack(l))
  {
    SlideBackMirror(l);
    SlideFrontKeepsCellValues(Reverse(l));
  }

  /**
   * A slide toward the end leaves a line unchanged exactly when the line is
   * already compacted toward the end and no two neighbouring tiles are equal.
   */
  lemma {:induction false} SlideBackFixed(l: seq<int>)
    ensures SlideBack(l) == l <==> PackedBack(l) && NoMergeablePair(l)
  {
    var r := Reverse(l);
    SlideBackMirror(l);
    SlideFrontFixed(r);
    ReverseReverse(l);
    ReverseReverse(SlideFront(r));
    PackedBackMirror(l);
    NoMergeablePairMirror(l);
  }

  /** A line is compacted toward its end exactly when its reverse is compacted toward index 0. */
  lemma {:induction false} PackedBackMirror(l: seq<int>)
    ensures PackedBack(l) <==> PackedFront(Reverse(l))
  {
    var r := Reverse(l);
    if PackedFront(r) {
      forall a, b | 0 <= a < b < |l| && l[a] != EMPTY ensures l[b] != EMPTY {
        assert r[|l| - 1 - b] == l[b] && r[|l| - 1 - a] == l[a];
      }
    }
    if PackedBack(l) {
      forall a, b | 0 <= a < b < |r| && r[a] == EMPTY ensures r[b] == EMPTY {
        assert r[a] == l[|l| - 1 - a] && r[b] == l[|l| - 1 - b];
      }
    }
  }

  /** Reading a line backwards neither creates nor removes a mergeable pair. */
  lemma {:induction false} NoMergeablePairMirror(l: seq<int>)
    ensures NoMergeablePair(l) <==> NoMergeablePair(Reverse(l))
  {
    var r := Reverse(l);
    if NoMergeablePair(r) {
      forall k | 0 <= k < |l| - 1 && l[k] != EMPTY ensures l[k] != l[k + 1] {
        assert r[|l| - 2 - k] == l[k + 1] && r[|l| - 1 - k] == l[k];
      }
    }
    if NoMergeablePair(l) {
      forall k | 0 <= k < |r| - 1 && r[k] != EMPTY ensures r[k] != r[k + 1] {
        assert r[k] == l[|l| - 1 - k] && r[k + 1] == l[|l| - 2 - k];
      }
    }
  }

  // ---------------------------------------------------------------------
  // At most one merge per tile, from the leading edge
  // ---------------------------------------------------------------------

  /** Four equal tiles make two merges, not one chain: `[2,2,2,2]` gives `[4,4,0,0]`. */
  lemma {:induction false} FourEqualTilesMergePairwise()
    ensures SlideFront([2, 2, 2, 2]) == [4, 4, 0, 0]
  {
    var l := [2, 2, 2, 2];
    assert NonZeros(l) == l by { NonZerosOfTiles(l); }
    assert l[2..] == [2, 2];
    assert MergeTiles([2, 2]) == [4];
    assert MergeTiles(l) == [4, 4];
    SlideFrontStandard(l);
  }

  /** The pair nearest the leading edge merges first: `[2,2,2,0]` gives `[4,2,0,0]` moving toward index 0. */
  lemma {:induction false} ThreeEqualTilesMergeFromLeadingEdge()
    ensures SlideFront([2, 2, 2, 0]) == [4, 2, 0, 0]
  {
    var l := [2, 2, 2, 0];
    assert l == [2, 2, 2] + [0];
    NonZerosAppend([2, 2, 2], [0]);
    NonZerosOfTiles([2, 2, 2]);
    assert NonZeros([0]) == NonZeros([0][1..]);
    assert NonZeros(l) == [2, 2, 2];
    assert [2, 2, 2][2..] == [2];
    assert MergeTiles([2, 2, 2]) == [4, 2];
    SlideFrontStandard(l);
  }

  /** Toward the end the pair nearest the end merges: `[2,2,2,0]` gives `[0,0,2,4]`. */
  lemma {:induction false} ThreeEqualTilesMergeFromTrailingEdge()
    ensures SlideBack([2, 2, 2, 0]) == [0, 0, 2, 4]
  {
    var l := [2, 2, 2, 0];
    assert l == [2, 2, 2] + [0];
    NonZerosAppend([2, 2, 2], [0]);
    NonZerosOfTiles([2, 2, 2]);
    assert NonZeros([0]) == NonZeros([0][1..]);
    assert CompactBack(l) == [0, 2, 2, 2];
    assert MergeBack([0]) == [0];
    assert MergeBack([0, 2]) == [0, 2];
    assert MergeBack([0, 2, 0]) == [0, 2, 0];
    assert [0, 2, 2, 2][..2] + [EMPTY] == [0, 2, 0];
    assert MergeBack([0, 2, 2, 2]) == [0, 2, 0, 4];
    var m := [0, 2, 0, 4];
    assert m == [0, 2] + [0, 4];
    NonZerosAppend([0, 2], [0, 4]);
    assert NonZeros([0, 2]) == [2] && NonZeros([0, 4]) == [4];
    assert CompactBack(m) == [0, 0, 2, 4];
  }

  /** A line already at its edge with no equal neighbours does not move: `[2,0,0,0]` stays. */
  lemma {:induction false} CompactedLineStays()
    ensures SlideFront([2, 0, 0, 0]) == [2, 0, 0, 0]
  {
    SlideFrontFixed([2, 0, 0, 0]);
  }
}
