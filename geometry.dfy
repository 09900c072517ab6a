/**
 * Piece geometry of tetromino.py: the seven shape matrices, the transpose/reverse
 * rotations `_rot_cw` and `_rot_ccw`, the wall-kick tables, and the row-major
 * enumeration of a piece's occupied cells (`get_cells`).
 */
module Geometry {

  /** A shape matrix: rows of colour codes, 0 meaning an empty entry. */
  type Matrix = seq<seq<int>>

  datatype ShapeKey = I | J | L | O | S | T | Z

  /** An occupied cell of a piece on the board: column, row and colour code. */
  datatype Cell = Cell(col: int, row: int, val: int)

  /** A wall-kick offset (dx, dy); rows grow downward, so dy > 0 moves down. */
  type Kick = (int, int)

  /**
   * A value snapshot of a `Tetromino`: its shape key, current matrix, origin,
   * rotation state, and the `rotated` flag that game.py attaches to it.
   */
  datatype Piece = Piece(shapeKey: ShapeKey, matrix: Matrix, x: int, y: int, r: int, rotated: bool)

  // ---------------------------------------------------------------- matrices

  /** A non-empty rectangular matrix. */
  predicate IsMatrix(m: Matrix) {
    |m| > 0 && |m[0]| > 0 && forall i :: 0 <= i < |m| ==> |m[i]| == |m[0]|
  }

  function Width(m: Matrix): nat
    requires |m| > 0
  {
    |m[0]|
  }

  predicate RowOccupied(row: seq<int>) {
    exists j :: 0 <= j < |row| && row[j] != 0
  }

  predicate ColOccupied(m: Matrix, j: int)
    requires IsMatrix(m) && 0 <= j < Width(m)
  {
    exists i :: 0 <= i < |m| && m[i][j] != 0
  }

  /** The matrix is the minimal bounding box of its cells: no row or column is empty. */
  predicate Tight(m: Matrix)
    requires IsMatrix(m)
  {
    && (forall i :: 0 <= i < |m| ==> RowOccupied(m[i]))
    && (forall j :: 0 <= j < Width(m) ==> ColOccupied(m, j))
  }

  // ---------------------------------------------------------------- shapes

  /** The colour code of each shape: I=1 ... Z=7. */
  function Colour(k: ShapeKey): int {
    match k
    case I => 1
    case J => 2
    case L => 3
    case O => 4
    case S => 5
    case T => 6
    case Z => 7
  }

  /** `SHAPES`: the spawn matrix of each shape. */
  const ShapeTable: seq<Matrix> := [
    [[1, 1, 1, 1]], [[2, 0, 0], [2, 2, 2]], [[0, 0, 3], [3, 3, 3]], [[4, 4], [4, 4]],
    [[0, 5, 5], [5, 5, 0]], [[0, 6, 0], [6, 6, 6]], [[7, 7, 0], [0, 7, 7]]]

  function KeyIndex(k: ShapeKey): (i: nat)
    ensures i < 7
  {
    match k
    case I => 0
    case J => 1
    case L => 2
    case O => 3
    case S => 4
    case T => 5
    case Z => 6
  }

  function Shape(k: ShapeKey): (m: Matrix)
    ensures IsMatrix(m)
  {
    ShapeTable[KeyIndex(k)]
  }

  // ---------------------------------------------------------------- rotation

  /** `s[::-1]`. */
  function Reverse<T>(s: seq<T>): (r: seq<T>)
    ensures |r| == |s|
    decreases |s|
  {
    if s == [] then [] else Reverse(s[1..]) + [s[0]]
  }

  lemma {:induction false} ReverseAt<T>(s: seq<T>)
    ensures forall k :: 0 <= k < |s| ==> Reverse(s)[k] == s[|s| - 1 - k]
    decreases |s|
  {
    if s != [] {
      ReverseAt(s[1..]);
    }
  }

  /** Column `j` of `m`, top to bottom. */
  function Column(m: Matrix, j: nat): (c: seq<int>)
    requires forall i :: 0 <= i < |m| ==> j < |m[i]|
    ensures |c| == |m|
    decreases |m|
  {
    if m == [] then [] else [m[0][j]] + Column(m[1..], j)
  }

  lemma {:induction false} ColumnAt(m: Matrix, j: nat)
    requires forall i :: 0 <= i < |m| ==> j < |m[i]|
    ensures forall i :: 0 <= i < |m| ==> Column(m, j)[i] == m[i][j]
    decreases |m|
  {
    if m != [] {
      ColumnAt(m[1..], j);
    }
  }

  /** Columns `j` to `w - 1` of `m`. */
  function Columns(m: Matrix, j: nat, w: nat): (cs: seq<seq<int>>)
    requires forall i :: 0 <= i < |m| ==> w <= |m[i]|
    ensures |cs| == if j <= w then w - j else 0
    decreases w - j
  {
    if j >= w then [] else [Column(m, j)] + Columns(m, j + 1, w)
  }

  lemma {:induction false} ColumnsAt(m: Matrix, j: nat, w: nat)
    requires forall i :: 0 <= i < |m| ==> w <= |m[i]|
    ensures forall k :: 0 <= k < |Columns(m, j, w)| ==> Columns(m, j, w)[k] == Column(m, j + k)
    decreases w - j
  {
    if j < w {
      ColumnsAt(m, j + 1, w);
    }
  }

  /** `zip(*m)`: the columns of a rectangular matrix, as rows. */
  function Transpose(m: Matrix): (t: Matrix)
    requires IsMatrix(m)
    ensures |t| == Width(m)
  {
    Columns(m, 0, Width(m))
  }

  /** Every row reversed. */
  function ReverseRows(rows: Matrix): (r: Matrix)
    ensures |r| == |rows|
    decreases |rows|
  {
    if rows == [] then [] else [Reverse(rows[0])] + ReverseRows(rows[1..])
  }

  lemma {:induction false} ReverseRowsAt(rows: Matrix)
    ensures forall k :: 0 <= k < |rows| ==> ReverseRows(rows)[k] == Reverse(rows[k])
    decreases |rows|
  {
    if rows != [] {
      ReverseRowsAt(rows[1..]);
    }
  }

  /** Entry (i, j) of the transpose is entry (j, i). */
  lemma TransposeAt(m: Matrix)
    requires IsMatrix(m)
    ensures forall i :: 0 <= i < Width(m) ==> |Transpose(m)[i]| == |m|
    ensures forall i, j :: 0 <= i < Width(m) && 0 <= j < |m| ==> Transpose(m)[i][j] == m[j][i]
  {
    ColumnsAt(m, 0, Width(m));
    forall i | 0 <= i < Width(m)
      ensures |Transpose(m)[i]| == |m| && forall j :: 0 <= j < |m| ==> Transpose(m)[i][j] == m[j][i]
    {
      ColumnAt(m, i);
    }
  }

  /** `_rot_cw`: the rows of the transpose, each reversed. */
  function RotCW(m: Matrix): (r: Matrix)
    requires IsMatrix(m)
    ensures IsMatrix(r) && |r| == Width(m) && Width(r) == |m|
  {
    TransposeAt(m);
    ReverseRowsAt(Transpose(m));
    ReverseRows(Transpose(m))
  }

  /** `_rot_ccw`: the rows of the transpose, in reverse order. */
  function RotCCW(m: Matrix): (r: Matrix)
    requires IsMatrix(m)
    ensures IsMatrix(r) && |r| == Width(m) && Width(r) == |m|
  {
    TransposeAt(m);
    ReverseAt(Transpose(m));
    Reverse(Transpose(m))
  }

  /** `_rot_cw` is a clockwise quarter turn: entry (i, j) of the result is entry (height - 1 - j, i). */
  lemma RotCWAt(m: Matrix)
    requires IsMatrix(m)
    ensures forall i, j :: 0 <= i < Width(m) && 0 <= j < |m| ==> RotCW(m)[i][j] == m[|m| - 1 - j][i]
  {
    var t := Transpose(m);
    TransposeAt(m);
    ReverseRowsAt(t);
    forall i | 0 <= i < Width(m)
      ensures forall j :: 0 <= j < |m| ==> RotCW(m)[i][j] == m[|m| - 1 - j][i]
    {
      ReverseAt(t[i]);
    }
  }

  /** `_rot_ccw` is a counter-clockwise quarter turn: entry (i, j) of the result is entry (j, width - 1 - i). */
  lemma RotCCWAt(m: Matrix)
    requires IsMatrix(m)
    ensures forall i, j :: 0 <= i < Width(m) && 0 <= j < |m| ==> RotCCW(m)[i][j] == m[j][Width(m) - 1 - i]
  {
    TransposeAt(m);
    ReverseAt(Transpose(m));
  }

  /** The matrix after `r` clockwise quarter turns of `m`. */
  function Orient(m: Matrix, r: nat): (o: Matrix)
    requires IsMatrix(m)
    ensures IsMatrix(o)
    decreases r
  {
    if r == 0 then m else RotCW(Orient(m, r - 1))
  }

  /** Two matrices of the same shape with the same entries are equal. */
  lemma SameEntries(a: Matrix, b: Matrix)
    requires IsMatrix(a) && IsMatrix(b) && |a| == |b| && Width(a) == Width(b)
    requires forall i, j :: 0 <= i < |a| && 0 <= j < Width(a) ==> a[i][j] == b[i][j]
    ensures a == b
  {
    forall i | 0 <= i < |a|
      ensures a[i] == b[i]
    {
      assert |a[i]| == |b[i]|;
    }
  }

  /** `_rot_ccw` undoes `_rot_cw`, and `_rot_cw` undoes `_rot_ccw`. */
  lemma RotationsInverse(m: Matrix)
    requires IsMatrix(m)
    ensures RotCCW(RotCW(m)) == m
    ensures RotCW(RotCCW(m)) == m
  {
    var c := RotCW(m);
    RotCWAt(m);
    RotCCWAt(c);
    forall i, j | 0 <= i < |m| && 0 <= j < Width(m)
      ensures RotCCW(c)[i][j] == m[i][j]
    {
      assert RotCCW(c)[i][j] == c[j][|m| - 1 - i];
    }
    SameEntries(RotCCW(c), m);
    var d := RotCCW(m);
    RotCCWAt(m);
    RotCWAt(d);
    forall i, j | 0 <= i < |m| && 0 <= j < Width(m)
      ensures RotCW(d)[i][j] == m[i][j]
    {
      assert RotCW(d)[i][j] == d[Width(m) - 1 - j][i];
    }
    SameEntries(RotCW(d), m);
  }

  /** Two clockwise turns reverse both the rows and the columns. */
  lemma HalfTurn(m: Matrix)
    requires IsMatrix(m)
    ensures |RotCW(RotCW(m))| == |m| && Width(RotCW(RotCW(m))) == Width(m)
    ensures forall i, j :: 0 <= i < |m| && 0 <= j < Width(m) ==>
      RotCW(RotCW(m))[i][j] == m[|m| - 1 - i][Width(m) - 1 - j]
  {
    RotCWAt(m);
    RotCWAt(RotCW(m));
  }

  /** Four clockwise turns restore the matrix. */
  lemma FourTurns(m: Matrix)
    requires IsMatrix(m)
    ensures RotCW(RotCW(RotCW(RotCW(m)))) == m
  {
    var h := RotCW(RotCW(m));
    HalfTurn(m);
    HalfTurn(h);
    SameEntries(RotCW(RotCW(h)), m);
  }

  /** A clockwise turn keeps a matrix free of empty rows and columns. */
  lemma RotCWTight(m: Matrix)
    requires IsMatrix(m) && Tight(m)
    ensures Tight(RotCW(m))
  {
    var r := RotCW(m);
    RotCWAt(m);
    forall i | 0 <= i < |r|
      ensures RowOccupied(r[i])
    {
      assert ColOccupied(m, i);
      var i0 :| 0 <= i0 < |m| && m[i0][i] != 0;
      assert r[i][|m| - 1 - i0] == m[i0][i];
    }
    forall j | 0 <= j < Width(r)
      ensures ColOccupied(r, j)
    {
      var row := |m| - 1 - j;
      assert RowOccupied(m[row]);
      var j0 :| 0 <= j0 < |m[row]| && m[row][j0] != 0;
      assert r[j0][j] == m[row][j0];
    }
  }

  lemma {:induction false} OrientTight(m: Matrix, r: nat)
    requires IsMatrix(m) && Tight(m)
    ensures Tight(Orient(m, r))
    decreases r
  {
    if r > 0 {
      OrientTight(m, r - 1);
      RotCWTight(Orient(m, r - 1));
    }
  }

  /** Turning an orientation clockwise gives the next rotation state, modulo 4. */
  lemma OrientCW(m: Matrix, r: nat)
    requires IsMatrix(m) && r < 4
    ensures RotCW(Orient(m, r)) == Orient(m, (r + 1) % 4)
  {
    if r == 3 {
      LastTurn(m);
    } else {
      var n := r + 1;
      assert n % 4 == n;
      assert Orient(m, n) == RotCW(Orient(m, n - 1));
    }
  }

  /** A quarter turn from rotation state 3 returns to state 0. */
  lemma LastTurn(m: Matrix)
    requires IsMatrix(m)
    ensures RotCW(Orient(m, 3)) == m
  {
    var o1 := RotCW(m);
    var o2 := RotCW(o1);
    assert Orient(m, 1) == o1;
    assert Orient(m, 2) == o2;
    assert Orient(m, 3) == RotCW(o2);
    FourTurns(m);
  }

  /** Turning an orientation counter-clockwise gives the previous rotation state, modulo 4. */
  lemma OrientCCW(m: Matrix, r: nat)
    requires IsMatrix(m) && r < 4
    ensures RotCCW(Orient(m, r)) == Orient(m, (r + 3) % 4)
  {
    if r == 0 {
      OrientCW(m, 3);
      RotationsInverse(Orient(m, 3));
    } else {
      var q := Orient(m, r - 1);
      assert Orient(m, r) == RotCW(q);
      RotationsInverse(q);
      assert (r + 3) % 4 == r - 1;
    }
  }

  /** Every entry of the O matrix is 4, so every orientation of O is the O matrix itself. */
  lemma OTurnsInPlace(r: nat)
    ensures RotCW(Shape(O)) == Shape(O) && RotCCW(Shape(O)) == Shape(O)
    ensures Orient(Shape(O), r) == Shape(O)
  {
    var o := Shape(O);
    RotCWAt(o);
    RotCCWAt(o);
    SameEntries(RotCW(o), o);
    SameEntries(RotCCW(o), o);
    var k := 0;
    while k < r
      invariant k <= r && Orient(o, k) == o
    {
      k := k + 1;
    }
  }

  // ---------------------------------------------------------------- pieces

  /** `Tetromino(shape_key)`: spawn matrix, origin (0, 0), rotation state 0, not rotated. */
  function Fresh(k: ShapeKey): Piece {
    Piece(k, Shape(k), 0, 0, 0, false)
  }

  /** The piece invariant: its matrix is its shape turned clockwise `r` times, 0 <= r < 4. */
  ghost predicate PieceOk(p: Piece) {
    0 <= p.r < 4 && p.matrix == Orient(Shape(p.shapeKey), p.r)
  }

  /** Every shape is a tight rectangle of at most 2 rows and 4 columns. */
  lemma ShapeTight(k: ShapeKey)
    ensures Tight(Shape(k)) && |Shape(k)| <= 2 && Width(Shape(k)) <= 4
  {
    var m := Shape(k);
    forall i | 0 <= i < |m|
      ensures RowOccupied(m[i])
    {
      if m[i][0] != 0 {
        assert m[i][0] != 0;
      } else if m[i][1] != 0 {
        assert m[i][1] != 0;
      } else {
        assert m[i][2] != 0;
      }
    }
    forall j | 0 <= j < Width(m)
      ensures ColOccupied(m, j)
    {
      if m[0][j] != 0 {
        assert m[0][j] != 0;
      } else {
        assert m[|m| - 1][j] != 0;
      }
    }
  }

  /** Any valid piece has a tight matrix of 1 to 4 rows and 1 to 4 columns. */
  lemma PieceShape(p: Piece)
    requires PieceOk(p)
    ensures IsMatrix(p.matrix) && Tight(p.matrix)
    ensures 1 <= |p.matrix| <= 4 && 1 <= Width(p.matrix) <= 4
  {
    ShapeTight(p.shapeKey);
    OrientTight(Shape(p.shapeKey), p.r);
  }

  // ---------------------------------------------------------------- cells

  function RowCells(row: seq<int>, x: int, y: int): seq<Cell>
    decreases |row|
  {
    if row == [] then []
    else (if row[0] != 0 then [Cell(x, y, row[0])] else []) + RowCells(row[1..], x + 1, y)
  }

  /** `get_cells`: `(x + col, y + row, val)` for every nonzero entry of `m`. */
  function Cells(m: Matrix, x: int, y: int): seq<Cell>
    decreases |m|
  {
    if m == [] then [] else RowCells(m[0], x, y) + Cells(m[1..], x, y + 1)
  }

  function PieceCells(p: Piece): seq<Cell> {
    Cells(p.matrix, p.x, p.y)
  }

  /** Row-major order: `a` comes strictly before `b`. */
  predicate Before(a: Cell, b: Cell) {
    a.row < b.row || (a.row == b.row && a.col < b.col)
  }

  /** Every cell of one matrix row lies in row `y` and comes from a nonzero entry. */
  lemma {:induction false} RowCellsSound(row: seq<int>, x: int, y: int)
    ensures forall c :: c in RowCells(row, x, y) ==>
      c.row == y && x <= c.col < x + |row| && row[c.col - x] == c.val && c.val != 0
    decreases |row|
  {
    if row != [] {
      RowCellsSound(row[1..], x + 1, y);
      var h: seq<Cell> := if row[0] != 0 then [Cell(x, y, row[0])] else [];
      var t := RowCells(row[1..], x + 1, y);
      assert RowCells(row, x, y) == h + t;
      forall c: Cell | c in h + t
        ensures c.row == y && x <= c.col < x + |row| && row[c.col - x] == c.val && c.val != 0
      {
        if c !in h {
          assert c in t;
          assert row[1..][c.col - (x + 1)] == row[c.col - x];
        }
      }
    }
  }

  /** Every nonzero entry of one matrix row is enumerated. */
  lemma {:induction false} RowCellsComplete(row: seq<int>, x: int, y: int)
    ensures forall j :: 0 <= j < |row| && row[j] != 0 ==> Cell(x + j, y, row[j]) in RowCells(row, x, y)
    decreases |row|
  {
    if row != [] {
      RowCellsComplete(row[1..], x + 1, y);
      var h: seq<Cell> := if row[0] != 0 then [Cell(x, y, row[0])] else [];
      var t := RowCells(row[1..], x + 1, y);
      assert RowCells(row, x, y) == h + t;
      forall j | 0 <= j < |row| && row[j] != 0
        ensures Cell(x + j, y, row[j]) in h + t
      {
        if j == 0 {
          assert Cell(x, y, row[0]) in h;
        } else {
          assert row[1..][j - 1] == row[j];
          assert Cell((x + 1) + (j - 1), y, row[1..][j - 1]) in t;
        }
      }
    }
  }

  /** The cells of one matrix row are enumerated left to right. */
  lemma {:induction false} RowCellsOrdered(row: seq<int>, x: int, y: int)
    ensures forall k1, k2 :: 0 <= k1 < k2 < |RowCells(row, x, y)| ==>
      RowCells(row, x, y)[k1].col < RowCells(row, x, y)[k2].col
    decreases |row|
  {
    if row != [] {
      RowCellsOrdered(row[1..], x + 1, y);
      RowCellsSound(row[1..], x + 1, y);
      var h: seq<Cell> := if row[0] != 0 then [Cell(x, y, row[0])] else [];
      var t := RowCells(row[1..], x + 1, y);
      assert RowCells(row, x, y) == h + t;
      forall k1, k2 | 0 <= k1 < k2 < |h + t|
        ensures (h + t)[k1].col < (h + t)[k2].col
      {
        if k1 < |h| {
          assert (h + t)[k1] == Cell(x, y, row[0]);
          assert (h + t)[k2] == t[k2 - |h|];
          assert t[k2 - |h|] in t;
        } else {
          assert (h + t)[k1] == t[k1 - |h|] && (h + t)[k2] == t[k2 - |h|];
        }
      }
    }
  }

  lemma RowCellsFacts(row: seq<int>, x: int, y: int)
    ensures forall c :: c in RowCells(row, x, y) ==>
      c.row == y && x <= c.col < x + |row| && row[c.col - x] == c.val && c.val != 0
    ensures forall j :: 0 <= j < |row| && row[j] != 0 ==> Cell(x + j, y, row[j]) in RowCells(row, x, y)
    ensures forall k1, k2 :: 0 <= k1 < k2 < |RowCells(row, x, y)| ==>
      RowCells(row, x, y)[k1].col < RowCells(row, x, y)[k2].col
  {
    RowCellsSound(row, x, y);
    RowCellsComplete(row, x, y);
    RowCellsOrdered(row, x, y);
  }

  /** Every enumerated cell comes from a nonzero entry of the matrix, at its offset. */
  lemma {:induction false} CellsSound(m: Matrix, x: int, y: int)
    ensures forall c :: c in Cells(m, x, y) ==>
      && y <= c.row < y + |m| && x <= c.col && c.col - x < |m[c.row - y]|
      && m[c.row - y][c.col - x] == c.val && c.val != 0
    decreases |m|
  {
    if m != [] {
      RowCellsSound(m[0], x, y);
      CellsSound(m[1..], x, y + 1);
      var a := RowCells(m[0], x, y);
      var b := Cells(m[1..], x, y + 1);
      assert Cells(m, x, y) == a + b;
      forall c: Cell | c in a + b
        ensures && y <= c.row < y + |m| && x <= c.col && c.col - x < |m[c.row - y]|
                && m[c.row - y][c.col - x] == c.val && c.val != 0
      {
        if c !in a {
          assert c in b;
          assert m[1..][c.row - (y + 1)] == m[c.row - y];
        }
      }
    }
  }

  /** Every nonzero entry of the matrix is enumerated. */
  lemma {:induction false} CellsComplete(m: Matrix, x: int, y: int)
    ensures forall i, j :: 0 <= i < |m| && 0 <= j < |m[i]| && m[i][j] != 0 ==>
      Cell(x + j, y + i, m[i][j]) in Cells(m, x, y)
    decreases |m|
  {
    if m != [] {
      RowCellsComplete(m[0], x, y);
      CellsComplete(m[1..], x, y + 1);
      var a := RowCells(m[0], x, y);
      var b := Cells(m[1..], x, y + 1);
      assert Cells(m, x, y) == a + b;
      forall i, j | 0 <= i < |m| && 0 <= j < |m[i]| && m[i][j] != 0
        ensures Cell(x + j, y + i, m[i][j]) in a + b
      {
        if i == 0 {
          assert Cell(x + j, y, m[0][j]) in a;
        } else {
          assert m[1..][i - 1][j] == m[i][j];
          assert Cell(x + j, (y + 1) + (i - 1), m[1..][i - 1][j]) in b;
        }
      }
    }
  }

  /** The cells are enumerated in row-major order. */
  lemma {:induction false} CellsOrdered(m: Matrix, x: int, y: int)
    ensures forall k1, k2 :: 0 <= k1 < k2 < |Cells(m, x, y)| ==>
      Before(Cells(m, x, y)[k1], Cells(m, x, y)[k2])
    decreases |m|
  {
    if m != [] {
      RowCellsSound(m[0], x, y);
      RowCellsOrdered(m[0], x, y);
      CellsSound(m[1..], x, y + 1);
      CellsOrdered(m[1..], x, y + 1);
      var a := RowCells(m[0], x, y);
      var b := Cells(m[1..], x, y + 1);
      assert Cells(m, x, y) == a + b;
      forall k1, k2 | 0 <= k1 < k2 < |a + b|
        ensures Before((a + b)[k1], (a + b)[k2])
      {
        if k2 < |a| {
          assert (a + b)[k1] == a[k1] && (a + b)[k2] == a[k2];
        } else if k1 >= |a| {
          assert (a + b)[k1] == b[k1 - |a|] && (a + b)[k2] == b[k2 - |a|];
        } else {
          assert (a + b)[k1] == a[k1] && a[k1] in a;
          assert (a + b)[k2] == b[k2 - |a|] && b[k2 - |a|] in b;
        }
      }
    }
  }

  /**
   * `get_cells` yields `(x + col, y + row, val)` exactly for the nonzero entries
   * of the matrix, each once, in row-major order.
   */
  lemma CellsRowMajor(m: Matrix, x: int, y: int)
    ensures forall c :: c in Cells(m, x, y) ==>
      && y <= c.row < y + |m| && x <= c.col && c.col - x < |m[c.row - y]|
      && m[c.row - y][c.col - x] == c.val && c.val != 0
    ensures forall i, j :: 0 <= i < |m| && 0 <= j < |m[i]| && m[i][j] != 0 ==>
      Cell(x + j, y + i, m[i][j]) in Cells(m, x, y)
    ensures forall k1, k2 :: 0 <= k1 < k2 < |Cells(m, x, y)| ==>
      Before(Cells(m, x, y)[k1], Cells(m, x, y)[k2])
  {
    CellsSound(m, x, y);
    CellsComplete(m, x, y);
    CellsOrdered(m, x, y);
  }

  /**
   * For a tight matrix the first enumerated cell lies in the top row `y` of the
   * piece, and every cell lies in the matrix's bounding box.
   */
  lemma TopCell(m: Matrix, x: int, y: int)
    requires IsMatrix(m) && Tight(m)
    ensures |Cells(m, x, y)| > 0 && Cells(m, x, y)[0].row == y
    ensures forall k :: 0 <= k < |Cells(m, x, y)| ==>
      y <= Cells(m, x, y)[k].row < y + |m| && x <= Cells(m, x, y)[k].col < x + Width(m)
  {
    CellsRowMajor(m, x, y);
    RowCellsFacts(m[0], x, y);
    assert RowOccupied(m[0]);
    var j :| 0 <= j < |m[0]| && m[0][j] != 0;
    var a := RowCells(m[0], x, y);
    assert Cell(x + j, y, m[0][j]) in a;
    assert Cells(m, x, y) == a + Cells(m[1..], x, y + 1);
    assert Cells(m, x, y)[0] == a[0] && a[0] in a;
    forall k | 0 <= k < |Cells(m, x, y)|
      ensures y <= Cells(m, x, y)[k].row < y + |m| && x <= Cells(m, x, y)[k].col < x + Width(m)
    {
      assert Cells(m, x, y)[k] in Cells(m, x, y);
    }
  }

  /** The cells translated by (dx, dy). */
  function Shift(cs: seq<Cell>, dx: int, dy: int): (t: seq<Cell>)
    ensures |t| == |cs|
  {
    seq(|cs|, k requires 0 <= k < |cs| => Cell(cs[k].col + dx, cs[k].row + dy, cs[k].val))
  }

  lemma ShiftAppend(a: seq<Cell>, b: seq<Cell>, dx: int, dy: int)
    ensures Shift(a + b, dx, dy) == Shift(a, dx, dy) + Shift(b, dx, dy)
  {
  }

  lemma {:induction false} RowCellsShift(row: seq<int>, x: int, y: int, dx: int, dy: int)
    ensures RowCells(row, x + dx, y + dy) == Shift(RowCells(row, x, y), dx, dy)
    decreases |row|
  {
    if row != [] {
      RowCellsShift(row[1..], x + 1, y, dx, dy);
      assert (x + 1) + dx == (x + dx) + 1;
      var h: seq<Cell> := if row[0] != 0 then [Cell(x, y, row[0])] else [];
      ShiftAppend(h, RowCells(row[1..], x + 1, y), dx, dy);
    }
  }

  /** Moving the origin by (dx, dy) moves every enumerated cell by (dx, dy). */
  lemma {:induction false} CellsShift(m: Matrix, x: int, y: int, dx: int, dy: int)
    ensures Cells(m, x + dx, y + dy) == Shift(Cells(m, x, y), dx, dy)
    decreases |m|
  {
    if m != [] {
      RowCellsShift(m[0], x, y, dx, dy);
      CellsShift(m[1..], x, y + 1, dx, dy);
      assert (y + 1) + dy == (y + dy) + 1;
      ShiftAppend(RowCells(m[0], x, y), Cells(m[1..], x, y + 1), dx, dy);
    }
  }

  lemma RowCells2(a: int, b: int, y: int)
    ensures RowCells([a, b], 0, y) ==
      (if a != 0 then [Cell(0, y, a)] else []) + (if b != 0 then [Cell(1, y, b)] else [])
  {
    assert [a, b][1..] == [b] && [b][1..] == [];
    assert RowCells([b], 1, y) == (if b != 0 then [Cell(1, y, b)] else []) + RowCells([], 2, y);
  }

  lemma RowCells3(a: int, b: int, c: int, y: int)
    ensures RowCells([a, b, c], 0, y) ==
      (if a != 0 then [Cell(0, y, a)] else []) + (if b != 0 then [Cell(1, y, b)] else [])
      + (if c != 0 then [Cell(2, y, c)] else [])
  {
    assert [a, b, c][1..] == [b, c] && [b, c][1..] == [c] && [c][1..] == [];
    assert RowCells([c], 2, y) == (if c != 0 then [Cell(2, y, c)] else []) + RowCells([], 3, y);
    assert RowCells([b, c], 1, y) == (if b != 0 then [Cell(1, y, b)] else []) + RowCells([c], 2, y);
  }

  lemma TwoRowCells(r0: seq<int>, r1: seq<int>)
    ensures Cells([r0, r1], 0, 0) == RowCells(r0, 0, 0) + RowCells(r1, 0, 1)
  {
    assert [r0, r1][1..] == [r1] && [r1][1..] == [];
    assert Cells([r1], 0, 1) == RowCells(r1, 0, 1) + Cells([], 0, 2);
  }

  /** The cells `get_cells` yields for each shape at origin (0, 0), in order. */
  function SpawnCells(k: ShapeKey): seq<Cell> {
    match k
    case I => [Cell(0, 0, 1), Cell(1, 0, 1), Cell(2, 0, 1), Cell(3, 0, 1)]
    case J => [Cell(0, 0, 2), Cell(0, 1, 2), Cell(1, 1, 2), Cell(2, 1, 2)]
    case L => [Cell(2, 0, 3), Cell(0, 1, 3), Cell(1, 1, 3), Cell(2, 1, 3)]
    case O => [Cell(0, 0, 4), Cell(1, 0, 4), Cell(0, 1, 4), Cell(1, 1, 4)]
    case S => [Cell(1, 0, 5), Cell(2, 0, 5), Cell(0, 1, 5), Cell(1, 1, 5)]
    case T => [Cell(1, 0, 6), Cell(0, 1, 6), Cell(1, 1, 6), Cell(2, 1, 6)]
    case Z => [Cell(0, 0, 7), Cell(1, 0, 7), Cell(1, 1, 7), Cell(2, 1, 7)]
  }

  lemma CellsOfI()
    ensures Cells(Shape(I), 0, 0) == SpawnCells(I)
    ensures |Cells(Shape(I), 0, 0)| == 4 && forall c :: c in Cells(Shape(I), 0, 0) ==> c.val == 1
  {
    assert [[1, 1, 1, 1]][1..] == [];
    assert [1, 1, 1, 1][1..] == [1, 1, 1];
    RowCells3(1, 1, 1, 0);
    RowCellsShift([1, 1, 1], 0, 0, 1, 0);
  }

  lemma CellsOfJ()
    ensures Cells(Shape(J), 0, 0) == SpawnCells(J)
    ensures |Cells(Shape(J), 0, 0)| == 4 && forall c :: c in Cells(Shape(J), 0, 0) ==> c.val == 2
  {
    TwoRowCells([2, 0, 0], [2, 2, 2]);
    RowCells3(2, 0, 0, 0);
    RowCells3(2, 2, 2, 1);
  }

  lemma CellsOfL()
    ensures Cells(Shape(L), 0, 0) == SpawnCells(L)
    ensures |Cells(Shape(L), 0, 0)| == 4 && forall c :: c in Cells(Shape(L), 0, 0) ==> c.val == 3
  {
    TwoRowCells([0, 0, 3], [3, 3, 3]);
    RowCells3(0, 0, 3, 0);
    RowCells3(3, 3, 3, 1);
  }

  lemma CellsOfO()
    ensures Cells(Shape(O), 0, 0) == SpawnCells(O)
    ensures |Cells(Shape(O), 0, 0)| == 4 && forall c :: c in Cells(Shape(O), 0, 0) ==> c.val == 4
  {
    TwoRowCells([4, 4], [4, 4]);
    RowCells2(4, 4, 0);
    RowCells2(4, 4, 1);
  }

  lemma CellsOfS()
    ensures Cells(Shape(S), 0, 0) == SpawnCells(S)
    ensures |Cells(Shape(S), 0, 0)| == 4 && forall c :: c in Cells(Shape(S), 0, 0) ==> c.val == 5
  {
    TwoRowCells([0, 5, 5], [5, 5, 0]);
    RowCells3(0, 5, 5, 0);
    RowCells3(5, 5, 0, 1);
  }

  lemma CellsOfT()
    ensures Cells(Shape(T), 0, 0) == SpawnCells(T)
    ensures |Cells(Shape(T), 0, 0)| == 4 && forall c :: c in Cells(Shape(T), 0, 0) ==> c.val == 6
  {
    TwoRowCells([0, 6, 0], [6, 6, 6]);
    RowCells3(0, 6, 0, 0);
    RowCells3(6, 6, 6, 1);
  }

  lemma CellsOfZ()
    ensures Cells(Shape(Z), 0, 0) == SpawnCells(Z)
    ensures |Cells(Shape(Z), 0, 0)| == 4 && forall c :: c in Cells(Shape(Z), 0, 0) ==> c.val == 7
  {
    TwoRowCells([7, 7, 0], [0, 7, 7]);
    RowCells3(7, 7, 0, 0);
    RowCells3(0, 7, 7, 1);
  }

  /** Every entry of `SHAPES` has exactly 4 nonzero entries, all equal to its colour code. */
  lemma ShapeCells(k: ShapeKey)
    ensures |Cells(Shape(k), 0, 0)| == 4
    ensures forall c :: c in Cells(Shape(k), 0, 0) ==> c.val == Colour(k)
  {
    match k
    case I => CellsOfI();
    case J => CellsOfJ();
    case L => CellsOfL();
    case O => CellsOfO();
    case S => CellsOfS();
    case T => CellsOfT();
    case Z => CellsOfZ();
  }

  // ---------------------------------------------------------------- kicks

  /** `Tetromino.JLSTZ_KICKS`, indexed by (old rotation state, new rotation state). */
  const JlstzKicks: map<(int, int), seq<Kick>> := map[
    (0, 1) := [(0, 0), (-1, 0), (-1, -1), (0, 2), (-1, 2)],
    (1, 0) := [(0, 0), (1, 0), (1, 1), (0, -2), (1, -2)],
    (1, 2) := [(0, 0), (1, 0), (1, 1), (0, -2), (1, -2)],
    (2, 1) := [(0, 0), (-1, 0), (-1, -1), (0, 2), (-1, 2)],
    (2, 3) := [(0, 0), (1, 0), (1, -1), (0, 2), (1, 2)],
    (3, 2) := [(0, 0), (-1, 0), (-1, 1), (0, -2), (-1, -2)],
    (3, 0) := [(0, 0), (-1, 0), (-1, 1), (0, -2), (-1, -2)],
    (0, 3) := [(0, 0), (1, 0), (1, -1), (0, 2), (1, 2)]
  ]

  /** `Tetromino.I_KICKS`. */
  const IKicks: map<(int, int), seq<Kick>> := map[
    (0, 1) := [(0, 0), (-2, 0), (1, 0), (-2, 1), (1, -2)],
    (1, 0) := [(0, 0), (2, 0), (-1, 0), (2, -1), (-1, 2)],
    (1, 2) := [(0, 0), (-1, 0), (2, 0), (-1, -2), (2, 1)],
    (2, 1) := [(0, 0), (1, 0), (-2, 0), (1, 2), (-2, -1)],
    (2, 3) := [(0, 0), (2, 0), (-1, 0), (2, -1), (-1, 2)],
    (3, 2) := [(0, 0), (-2, 0), (1, 0), (-2, 1), (1, -2)],
    (3, 0) := [(0, 0), (1, 0), (-2, 0), (1, 2), (-2, -1)],
    (0, 3) := [(0, 0), (-1, 0), (2, 0), (-1, -2), (2, 1)]
  ]

  /** `Tetromino.ROT_DIR`: +1 is clockwise, -1 counter-clockwise. */
  const RotDir: map<int, int> := map[1 := 1, -1 := -1]

  /** The table `rotate` consults: `I_KICKS` for "I", `JLSTZ_KICKS` for every other key, "O" included. */
  function KickTable(k: ShapeKey): map<(int, int), seq<Kick>> {
    if k == I then IKicks else JlstzKicks
  }

  /** The eight transitions (a, a + 1 mod 4) and (a, a - 1 mod 4). */
  const Transitions: set<(int, int)> := {(0, 1), (1, 0), (1, 2), (2, 1), (2, 3), (3, 2), (3, 0), (0, 3)}

  /** Every offset of the list, negated. */
  function Negated(ks: seq<Kick>): (n: seq<Kick>)
    ensures |n| == |ks|
    decreases |ks|
  {
    if ks == [] then [] else [(-ks[0].0, -ks[0].1)] + Negated(ks[1..])
  }

  lemma {:induction false} NegatedTwice(ks: seq<Kick>)
    ensures Negated(Negated(ks)) == ks
    decreases |ks|
  {
    if ks != [] {
      NegatedTwice(ks[1..]);
      assert Negated(ks)[1..] == Negated(ks[1..]);
    }
  }

  /**
   * A kick table is defined for exactly the eight transitions, every list has
   * five offsets starting with (0, 0), and the list for (b, a) negates the list for (a, b).
   */
  ghost predicate KicksWellFormed(t: map<(int, int), seq<Kick>>) {
    && t.Keys == Transitions
    && (forall p :: p in t ==> |t[p]| == 5 && t[p][0] == (0, 0))
    && (forall p :: p in t ==> (p.1, p.0) in t && t[(p.1, p.0)] == Negated(t[p]))
  }

  lemma KickListsFrom(t: map<(int, int), seq<Kick>>)
    requires t.Keys == Transitions
    requires |t[(0, 1)]| == 5 && |t[(1, 2)]| == 5 && |t[(2, 3)]| == 5 && |t[(3, 0)]| == 5
    requires t[(0, 1)][0] == t[(1, 2)][0] == t[(2, 3)][0] == t[(3, 0)][0] == (0, 0)
    requires t[(1, 0)] == Negated(t[(0, 1)]) && t[(2, 1)] == Negated(t[(1, 2)])
    requires t[(3, 2)] == Negated(t[(2, 3)]) && t[(0, 3)] == Negated(t[(3, 0)])
    ensures forall p :: p in t ==> |t[p]| == 5 && t[p][0] == (0, 0)
  {
    forall p | p in t
      ensures |t[p]| == 5 && t[p][0] == (0, 0)
    {
      assert p in Transitions;
    }
  }

  /** The table is well formed once the four clockwise lists are checked and the other four are their negations. */
  lemma KicksWellFormedFrom(t: map<(int, int), seq<Kick>>)
    requires t.Keys == Transitions
    requires |t[(0, 1)]| == 5 && |t[(1, 2)]| == 5 && |t[(2, 3)]| == 5 && |t[(3, 0)]| == 5
    requires t[(0, 1)][0] == t[(1, 2)][0] == t[(2, 3)][0] == t[(3, 0)][0] == (0, 0)
    requires t[(1, 0)] == Negated(t[(0, 1)]) && t[(2, 1)] == Negated(t[(1, 2)])
    requires t[(3, 2)] == Negated(t[(2, 3)]) && t[(0, 3)] == Negated(t[(3, 0)])
    ensures KicksWellFormed(t)
  {
    KickListsFrom(t);
    forall p | p in t
      ensures (p.1, p.0) in t && t[(p.1, p.0)] == Negated(t[p])
    {
      assert p in Transitions;
      if p == (1, 0) || p == (2, 1) || p == (3, 2) || p == (0, 3) {
        NegatedTwice(t[(p.1, p.0)]);
      }
    }
  }

  /** In a table whose keys are the eight transitions, the list for (b, a) negates the list for (a, b). */
  lemma KickPairNegated(t: map<(int, int), seq<Kick>>, a: int, b: int)
    requires (a, b) in t && (b, a) in t
    requires |t[(a, b)]| == 5 && |t[(b, a)]| == 5
    requires forall i :: 0 <= i < 5 ==> t[(b, a)][i] == (-t[(a, b)][i].0, -t[(a, b)][i].1)
    ensures t[(b, a)] == Negated(t[(a, b)])
  {
    var ks := t[(a, b)];
    assert Negated(ks)[1..] == Negated(ks[1..]);
    assert Negated(ks[1..])[1..] == Negated(ks[2..]);
    assert Negated(ks[2..])[1..] == Negated(ks[3..]);
    assert Negated(ks[3..])[1..] == Negated(ks[4..]);
    assert Negated(ks[4..])[1..] == Negated(ks[5..]);
  }

  lemma JlstzKeys()
    ensures JlstzKicks.Keys == Transitions
  {
  }

  lemma JlstzKicksWellFormed()
    ensures KicksWellFormed(JlstzKicks)
  {
    var t := JlstzKicks;
    JlstzKeys();
    KickPairNegated(t, 0, 1);
    KickPairNegated(t, 1, 2);
    KickPairNegated(t, 2, 3);
    KickPairNegated(t, 3, 0);
    KicksWellFormedFrom(t);
  }

  lemma IKeys()
    ensures IKicks.Keys == Transitions
  {
  }

  lemma IKicksWellFormed()
    ensures KicksWellFormed(IKicks)
  {
    var t := IKicks;
    IKeys();
    KickPairNegated(t, 0, 1);
    KickPairNegated(t, 1, 2);
    KickPairNegated(t, 2, 3);
    KickPairNegated(t, 3, 0);
    KicksWellFormedFrom(t);
  }

  /** Every transition `rotate` can look up is in the tables. */
  lemma TransitionCovered(r: int, direction: int)
    requires 0 <= r < 4 && direction in RotDir
    ensures (r, (r + RotDir[direction]) % 4) in Transitions
  {
  }

  /** The kick list `rotate` looks up always exists: five offsets, the first of them (0, 0). */
  lemma KickList(k: ShapeKey, r: int, direction: int)
    requires 0 <= r < 4 && direction in RotDir
    ensures (r, (r + RotDir[direction]) % 4) in KickTable(k)
    ensures |KickTable(k)[(r, (r + RotDir[direction]) % 4)]| == 5
    ensures KickTable(k)[(r, (r + RotDir[direction]) % 4)][0] == (0, 0)
  {
    TransitionCovered(r, direction);
    if k == I {
      IKicksWellFormed();
    } else {
      JlstzKicksWellFormed();
    }
  }
}
