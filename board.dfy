/**
 * The playfield of board.py: a grid of 20 rows of 10 colour codes (0 = empty),
 * the collision test `valid_position`, `lock_piece`, which writes a piece into
 * the grid, and `clear_lines`, which removes full rows and refills at the top.
 *
 * The grid is a Python list of lists updated in place; here it is a `seq` field
 * of `Board` that the methods reassign. Methods take the piece's cells (what
 * `piece.get_cells()` yields) rather than the piece object.
 */
module Playfield {
  import opened Geometry

  /** `BOARD_COLS` and `BOARD_ROWS` of settings.py. */
  const Cols := 10
  const Rows := 20

  /** `grid[row][col]`: row 0 is the top of the board. */
  type Grid = seq<seq<int>>

  predicate WellFormed(g: Grid) {
    |g| == Rows && forall r :: 0 <= r < |g| ==> |g[r]| == Cols
  }

  function EmptyRow(): (e: seq<int>)
    ensures |e| == Cols && forall j :: 0 <= j < |e| ==> e[j] == 0
  {
    seq(Cols, _ => 0)
  }

  function EmptyRows(n: nat): (e: Grid)
    ensures |e| == n && forall r :: 0 <= r < n ==> e[r] == EmptyRow()
  {
    seq(n, _ => EmptyRow())
  }

  /** `Board.__init__`: twenty empty rows. */
  function EmptyGrid(): Grid {
    EmptyRows(Rows)
  }

  /** A row with no zero entry, i.e. one for which `any(v == 0 for v in row)` is false. */
  predicate Full(row: seq<int>) {
    forall j :: 0 <= j < |row| ==> row[j] != 0
  }

  predicate NoFullRow(g: Grid) {
    forall r :: 0 <= r < |g| ==> !Full(g[r])
  }

  // ---------------------------------------------------------------- collision

  /**
   * One translated cell is allowed: its column is on the board, its row is not
   * below the floor, and if it is on the board (row >= 0) the grid entry is empty.
   * A cell above the board (row < 0) never consults the grid.
   */
  predicate CellFree(g: Grid, col: int, row: int)
    requires WellFormed(g)
  {
    0 <= col < Cols && row < Rows && (row >= 0 ==> g[row][col] == 0)
  }

  /** `valid_position(piece, dx, dy)` for a piece whose cells are `cells`. */
  predicate Fits(g: Grid, cells: seq<Cell>, dx: int, dy: int)
    requires WellFormed(g)
  {
    forall i :: 0 <= i < |cells| ==> CellFree(g, cells[i].col + dx, cells[i].row + dy)
  }

  /** On an empty grid, a position is valid exactly when every cell is inside the walls and above the floor. */
  lemma FitsEmpty(cells: seq<Cell>, dx: int, dy: int)
    ensures Fits(EmptyGrid(), cells, dx, dy) <==>
      forall i :: 0 <= i < |cells| ==> 0 <= cells[i].col + dx < Cols && cells[i].row + dy < Rows
  {
    var g := EmptyGrid();
    if forall i :: 0 <= i < |cells| ==> 0 <= cells[i].col + dx < Cols && cells[i].row + dy < Rows {
      forall i | 0 <= i < |cells|
        ensures CellFree(g, cells[i].col + dx, cells[i].row + dy)
      {
        var row := cells[i].row + dy;
        if row >= 0 {
          assert g[row] == EmptyRow();
        }
      }
    }
  }

  // ---------------------------------------------------------------- writing cells

  /** Every cell is inside the board, rows 0..19 and columns 0..9. */
  predicate OnBoard(cells: seq<Cell>) {
    forall i :: 0 <= i < |cells| ==> 0 <= cells[i].col < Cols && 0 <= cells[i].row < Rows
  }

  /** No two cells share a board position. */
  predicate DistinctPositions(cells: seq<Cell>) {
    forall i, j :: 0 <= i < j < |cells| ==> cells[i].col != cells[j].col || cells[i].row != cells[j].row
  }

  /** The index of the first cell above the board (row < 0), or |cells| if there is none. */
  function FirstAbove(cells: seq<Cell>): (k: nat)
    ensures k <= |cells|
    ensures forall i :: 0 <= i < k ==> cells[i].row >= 0
    ensures k < |cells| ==> cells[k].row < 0
    decreases |cells|
  {
    if cells == [] || cells[0].row < 0 then 0 else 1 + FirstAbove(cells[1..])
  }

  /** `self.grid[y][x] = val`. */
  function Put(g: Grid, c: Cell): (h: Grid)
    requires WellFormed(g) && 0 <= c.col < Cols && 0 <= c.row < Rows
    ensures WellFormed(h)
  {
    g[c.row := g[c.row][c.col := c.val]]
  }

  /** The grid after writing the cells one after another, in order. */
  function WriteCells(g: Grid, cells: seq<Cell>): (h: Grid)
    requires WellFormed(g) && OnBoard(cells)
    ensures WellFormed(h)
    decreases |cells|
  {
    if cells == [] then g
    else
      var n := |cells| - 1;
      assert OnBoard(cells[..n]) by {
        forall i | 0 <= i < n ensures cells[..n][i] == cells[i] {}
      }
      Put(WriteCells(g, cells[..n]), cells[n])
  }

  /**
   * Writing cells at pairwise distinct positions puts each cell's value at its
   * position and leaves every other entry of the grid as it was.
   */
  lemma {:induction false} WriteCellsAt(g: Grid, cells: seq<Cell>)
    requires WellFormed(g) && OnBoard(cells) && DistinctPositions(cells)
    ensures forall i :: 0 <= i < |cells| ==>
      WriteCells(g, cells)[cells[i].row][cells[i].col] == cells[i].val
    ensures forall r, c ::
      (0 <= r < Rows && 0 <= c < Cols &&
       forall i :: 0 <= i < |cells| ==> cells[i].col != c || cells[i].row != r) ==>
      WriteCells(g, cells)[r][c] == g[r][c]
    decreases |cells|
  {
    if cells != [] {
      var n := |cells| - 1;
      var front := cells[..n];
      assert forall i :: 0 <= i < n ==> front[i] == cells[i];
      WriteCellsAt(g, front);
    }
  }

  /** Rows that no cell touches are left as they were. */
  lemma {:induction false} WriteCellsOutside(g: Grid, cells: seq<Cell>, r: int)
    requires WellFormed(g) && OnBoard(cells) && 0 <= r < Rows
    requires forall i :: 0 <= i < |cells| ==> cells[i].row != r
    ensures WriteCells(g, cells)[r] == g[r]
    decreases |cells|
  {
    if cells != [] {
      var n := |cells| - 1;
      var front := cells[..n];
      assert forall i :: 0 <= i < n ==> front[i] == cells[i];
      WriteCellsOutside(g, front, r);
    }
  }

  // ---------------------------------------------------------------- clearing lines

  /** `[row for row in grid if any(v == 0 for v in row)]`: the rows that are not full, in order. */
  function NonFull(g: Grid): Grid
    decreases |g|
  {
    if g == [] then []
    else NonFull(g[..|g| - 1]) + (if Full(g[|g| - 1]) then [] else [g[|g| - 1]])
  }

  /** The number of full rows. */
  function FullCount(g: Grid): nat
    decreases |g|
  {
    if g == [] then 0
    else FullCount(g[..|g| - 1]) + (if Full(g[|g| - 1]) then 1 else 0)
  }

  /** The indices of the full rows. */
  function FullRows(g: Grid): set<int> {
    set r | 0 <= r < |g| && Full(g[r])
  }

  /** The grid `clear_lines` leaves: one empty row per removed row on top of the kept rows. */
  function Compact(g: Grid): Grid {
    EmptyRows(FullCount(g)) + NonFull(g)
  }

  /** The kept and the removed rows add up to all rows. */
  lemma {:induction false} NonFullCount(g: Grid)
    ensures |NonFull(g)| + FullCount(g) == |g|
    decreases |g|
  {
    if g != [] {
      NonFullCount(g[..|g| - 1]);
    }
  }

  /** Every kept row is a row of `g` that is not full. */
  lemma {:induction false} NonFullSound(g: Grid)
    ensures forall k :: 0 <= k < |NonFull(g)| ==> !Full(NonFull(g)[k]) && NonFull(g)[k] in g
    decreases |g|
  {
    if g != [] {
      var n := |g| - 1;
      var front := g[..n];
      NonFullSound(front);
      var tail: Grid := if Full(g[n]) then [] else [g[n]];
      var kept := NonFull(front) + tail;
      assert NonFull(g) == kept;
      forall k | 0 <= k < |kept|
        ensures !Full(kept[k]) && kept[k] in g
      {
        if k < |NonFull(front)| {
          assert kept[k] == NonFull(front)[k];
          assert kept[k] in front;
        } else {
          assert kept[k] == g[n];
        }
      }
    }
  }

  /** Every row of `g` that is not full is kept. */
  lemma {:induction false} NonFullComplete(g: Grid)
    ensures forall r :: 0 <= r < |g| && !Full(g[r]) ==> g[r] in NonFull(g)
    decreases |g|
  {
    if g != [] {
      var n := |g| - 1;
      var front := g[..n];
      NonFullComplete(front);
      var tail: Grid := if Full(g[n]) then [] else [g[n]];
      var kept := NonFull(front) + tail;
      assert NonFull(g) == kept;
      forall r | 0 <= r < |g| && !Full(g[r])
        ensures g[r] in kept
      {
        if r < n {
          assert front[r] == g[r];
        } else {
          assert kept[|kept| - 1] == g[n];
        }
      }
    }
  }

  /** The count of removed rows is the number of full rows. */
  lemma {:induction false} FullCountRows(g: Grid)
    ensures FullCount(g) == |FullRows(g)|
    decreases |g|
  {
    if g != [] {
      var n := |g| - 1;
      var front := g[..n];
      FullCountRows(front);
      var extra: set<int> := if Full(g[n]) then {n} else {};
      assert FullRows(g) == FullRows(front) + extra by {
        forall r ensures r in FullRows(g) <==> r in FullRows(front) + extra {
          if 0 <= r < n {
            assert front[r] == g[r];
          }
        }
      }
      assert n !in FullRows(front);
    }
  }

  /**
   * The filter keeps exactly the rows that are not full: every kept row is a
   * row of `g` that is not full, every row of `g` that is not full is kept, and
   * the kept and the removed rows add up to all rows.
   */
  lemma NonFullFacts(g: Grid)
    ensures |NonFull(g)| + FullCount(g) == |g|
    ensures forall k :: 0 <= k < |NonFull(g)| ==> !Full(NonFull(g)[k]) && NonFull(g)[k] in g
    ensures forall r :: 0 <= r < |g| && !Full(g[r]) ==> g[r] in NonFull(g)
    ensures FullCount(g) == |FullRows(g)|
  {
    NonFullCount(g);
    NonFullSound(g);
    NonFullComplete(g);
    FullCountRows(g);
  }

  /** On a grid with no full row the filter keeps every row. */
  lemma {:induction false} NoFullIdentity(g: Grid)
    requires NoFullRow(g)
    ensures NonFull(g) == g && FullCount(g) == 0
    decreases |g|
  {
    if g != [] {
      var n := |g| - 1;
      assert NoFullRow(g[..n]);
      NoFullIdentity(g[..n]);
      assert g == g[..n] + [g[n]];
    }
  }

  /**
   * If every full row of `g` lies in a window of `h` consecutive rows, at most
   * `h` rows are full.
   */
  lemma {:induction false} FullCountWindow(g: Grid, lo: int, h: nat)
    requires forall r :: 0 <= r < |g| && Full(g[r]) ==> lo <= r < lo + h
    ensures FullCount(g) <= h
    decreases |g|
  {
    if g != [] {
      var n := |g| - 1;
      var front := g[..n];
      if Full(g[n]) {
        forall r | 0 <= r < n && Full(front[r])
          ensures lo <= r < lo + (h - 1)
        {
          assert front[r] == g[r];
        }
        FullCountWindow(front, lo, h - 1);
      } else {
        forall r | 0 <= r < n && Full(front[r])
          ensures lo <= r < lo + h
        {
          assert front[r] == g[r];
        }
        FullCountWindow(front, lo, h);
      }
    }
  }

  /**
   * `clear_lines`: the result is again 20 rows of 10, the number of removed
   * rows is the number of full rows, the top `FullCount(g)` rows are empty, the
   * rest are the rows that were not full in their original order, and no row
   * of the result is full.
   */
  lemma CompactFacts(g: Grid)
    requires WellFormed(g)
    ensures WellFormed(Compact(g))
    ensures FullCount(g) == |FullRows(g)| <= Rows
    ensures forall r :: 0 <= r < FullCount(g) ==> Compact(g)[r] == EmptyRow()
    ensures Compact(g)[FullCount(g)..] == NonFull(g)
    ensures NoFullRow(Compact(g))
  {
    NonFullFacts(g);
    var c := Compact(g);
    var k := FullCount(g);
    forall r | 0 <= r < |c|
      ensures |c[r]| == Cols && !Full(c[r])
    {
      if r < k {
        assert c[r] == EmptyRow();
        assert c[r][0] == 0;
      } else {
        assert c[r] == NonFull(g)[r - k];
        assert c[r] in g;
      }
    }
  }

  /** `clear_lines` on a grid with no full row removes nothing and changes nothing. */
  lemma CompactNoFull(g: Grid)
    requires NoFullRow(g)
    ensures FullCount(g) == 0 && Compact(g) == g
  {
    NoFullIdentity(g);
  }

  /** A second `clear_lines` right after the first removes nothing. */
  lemma CompactIdempotent(g: Grid)
    requires WellFormed(g)
    ensures FullCount(Compact(g)) == 0 && Compact(Compact(g)) == Compact(g)
  {
    CompactFacts(g);
    CompactNoFull(Compact(g));
  }

  // ---------------------------------------------------------------- locking

  /**
   * What `lock_piece` does to the grid and what it returns: it writes the
   * cells in order up to the first one above the board; if there is such a
   * cell it stops with -1 (game over) and clears nothing, otherwise it returns
   * the number of rows `clear_lines` removes.
   */
  function LockOutcome(g: Grid, cells: seq<Cell>): (int, Grid)
    requires WellFormed(g) && OnBoard(cells[..FirstAbove(cells)])
  {
    var k := FirstAbove(cells);
    var w := WriteCells(g, cells[..k]);
    var cleared: int := FullCount(w);
    if k < |cells| then (-1, w) else (cleared, Compact(w))
  }

  /**
   * `lock_piece` signals game over exactly when some cell is above the board;
   * then the cells before the first such cell are written and nothing is
   * cleared. Otherwise the result counts the full rows of the written grid,
   * which are cleared.
   */
  lemma LockFacts(g: Grid, cells: seq<Cell>)
    requires WellFormed(g) && OnBoard(cells[..FirstAbove(cells)])
    ensures LockOutcome(g, cells).0 == -1 <==> exists i :: 0 <= i < |cells| && cells[i].row < 0
    ensures LockOutcome(g, cells).0 == -1 ==>
      LockOutcome(g, cells).1 == WriteCells(g, cells[..FirstAbove(cells)])
    ensures LockOutcome(g, cells).0 != -1 ==>
      OnBoard(cells) && 0 <= LockOutcome(g, cells).0 <= Rows &&
      LockOutcome(g, cells).0 == FullCount(WriteCells(g, cells)) &&
      LockOutcome(g, cells).1 == Compact(WriteCells(g, cells))
    ensures WellFormed(LockOutcome(g, cells).1)
  {
    var k := FirstAbove(cells);
    var w := WriteCells(g, cells[..k]);
    assert cells[..|cells|] == cells;
    if k == |cells| {
      CompactFacts(w);
    }
  }

  /**
   * If no row was full before, locking cells that all lie in rows lo..lo+h-1
   * clears at most h rows.
   */
  lemma LockClearBound(g: Grid, cells: seq<Cell>, lo: int, h: nat)
    requires WellFormed(g) && NoFullRow(g) && OnBoard(cells)
    requires forall i :: 0 <= i < |cells| ==> lo <= cells[i].row < lo + h
    ensures FullCount(WriteCells(g, cells)) <= h
  {
    var w := WriteCells(g, cells);
    forall r | 0 <= r < |w| && Full(w[r])
      ensures lo <= r < lo + h
    {
      if forall i :: 0 <= i < |cells| ==> cells[i].row != r {
        WriteCellsOutside(g, cells, r);
        assert false;
      }
    }
    FullCountWindow(w, lo, h);
  }

  /** One more write extends the prefix written so far. */
  lemma WriteStep(g: Grid, cells: seq<Cell>, i: nat, k: nat)
    requires WellFormed(g) && i < k <= |cells| && OnBoard(cells[..k])
    ensures OnBoard(cells[..i + 1]) && OnBoard(cells[..i])
    ensures WriteCells(g, cells[..i + 1]) == Put(WriteCells(g, cells[..i]), cells[i])
  {
    assert forall j :: 0 <= j <= i ==> cells[..i + 1][j] == cells[..k][j];
    assert cells[..i + 1][..i] == cells[..i];
  }

  // ---------------------------------------------------------------- the board

  /** `Board`: the grid and the board's own score counter. */
  class Board {
    var grid: Grid
    var score: int

    ghost predicate Valid()
      reads this
    {
      WellFormed(grid)
    }

    /** `Board.__init__`. */
    constructor ()
      ensures Valid() && grid == EmptyGrid() && score == 0
    {
      grid := EmptyGrid();
      score := 0;
    }

    /** `valid_position(piece, dx, dy)`: checks the cells one by one and stops at the first bad one. */
    method ValidPosition(cells: seq<Cell>, dx: int, dy: int) returns (ok: bool)
      requires Valid()
      ensures ok == Fits(grid, cells, dx, dy)
    {
      var i := 0;
      while i < |cells|
        invariant 0 <= i <= |cells|
        invariant forall k :: 0 <= k < i ==> CellFree(grid, cells[k].col + dx, cells[k].row + dy)
      {
        var x := cells[i].col + dx;
        var y := cells[i].row + dy;
        if !(0 <= x < Cols) {
          return false;
        }
        if y >= Rows {
          return false;
        }
        if y >= 0 && grid[y][x] != 0 {
          return false;
        }
        i := i + 1;
      }
      return true;
    }

    /** `lock_piece`: writes the cells, then clears lines and adds 100 per line to the board score. */
    method LockPiece(cells: seq<Cell>) returns (cleared: int)
      requires Valid() && OnBoard(cells[..FirstAbove(cells)])
      modifies this
      ensures Valid()
      ensures (cleared, grid) == LockOutcome(old(grid), cells)
      ensures score == old(score) + (if cleared == -1 then 0 else cleared * 100)
    {
      ghost var g0 := grid;
      ghost var k := FirstAbove(cells);
      var i := 0;
      while i < |cells|
        invariant 0 <= i <= k
        invariant OnBoard(cells[..i])
        invariant Valid() && grid == WriteCells(g0, cells[..i]) && score == old(score)
      {
        var c := cells[i];
        if c.row < 0 {
          return -1;
        }
        WriteStep(g0, cells, i, k);
        grid := grid[c.row := grid[c.row][c.col := c.val]];
        i := i + 1;
      }
      assert cells[..i] == cells;
      cleared := ClearLines();
      score := score + cleared * 100;
    }

    /** `clear_lines`: filter out the full rows, then insert empty rows at the top until there are 20. */
    method ClearLines() returns (cleared: int)
      requires Valid()
      modifies this
      ensures Valid() && score == old(score)
      ensures cleared == FullCount(old(grid)) && grid == Compact(old(grid))
    {
      ghost var g0 := grid;
      NonFullCount(grid);
      var kept := NonFull(grid);
      var newGrid := kept;
      cleared := Rows - |newGrid|;
      while |newGrid| < Rows
        invariant |kept| <= |newGrid| <= Rows
        invariant newGrid == EmptyRows(|newGrid| - |kept|) + kept
        decreases Rows - |newGrid|
      {
        assert [EmptyRow()] + EmptyRows(|newGrid| - |kept|) == EmptyRows(|newGrid| + 1 - |kept|);
        newGrid := [EmptyRow()] + newGrid;
      }
      CompactFacts(g0);
      grid := newGrid;
    }
  }
}
