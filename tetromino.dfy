/**
 * The `Tetromino` class of tetromino.py: a piece with a shape key, a matrix, an
 * origin and a rotation state, and its wall-kick rotation `rotate`.
 */
module Pieces {
  import opened Wrappers
  import opened Geometry
  import opened Playfield

  /**
   * The index of the first kick in `kicks` whose offset makes `cells` a valid
   * position on `g`, or `None` when no kick does.
   */
  function FirstKick(g: Grid, cells: seq<Cell>, kicks: seq<Kick>): (res: Option<nat>)
    requires WellFormed(g)
    ensures res.Some? ==>
      && res.value < |kicks|
      && Fits(g, cells, kicks[res.value].0, kicks[res.value].1)
      && forall j :: 0 <= j < res.value ==> !Fits(g, cells, kicks[j].0, kicks[j].1)
    ensures res.None? ==> forall j :: 0 <= j < |kicks| ==> !Fits(g, cells, kicks[j].0, kicks[j].1)
    decreases |kicks|
  {
    if kicks == [] then None
    else if Fits(g, cells, kicks[0].0, kicks[0].1) then Some(0)
    else match FirstKick(g, cells, kicks[1..])
      case None => None
      case Some(i) => Some(i + 1)
  }

  /** The first kick that fits is the one `FirstKick` finds. */
  lemma FirstKickIs(g: Grid, cells: seq<Cell>, kicks: seq<Kick>, i: nat)
    requires WellFormed(g) && i < |kicks|
    requires Fits(g, cells, kicks[i].0, kicks[i].1)
    requires forall j :: 0 <= j < i ==> !Fits(g, cells, kicks[j].0, kicks[j].1)
    ensures FirstKick(g, cells, kicks) == Some(i)
  {
    match FirstKick(g, cells, kicks)
    case None =>
    case Some(v) =>
  }

  /** When no kick fits, `FirstKick` finds none. */
  lemma FirstKickNone(g: Grid, cells: seq<Cell>, kicks: seq<Kick>)
    requires WellFormed(g)
    requires forall j :: 0 <= j < |kicks| ==> !Fits(g, cells, kicks[j].0, kicks[j].1)
    ensures FirstKick(g, cells, kicks) == None
  {
  }

  /** The matrix the trial rotation produces: `_rot_cw` for +1, `_rot_ccw` otherwise. */
  function Turned(m: Matrix, direction: int): Matrix
    requires IsMatrix(m)
  {
    if direction == 1 then RotCW(m) else RotCCW(m)
  }

  /** `kicks[(old_r, new_r)]`: the kick list `rotate` tries for a turn from state `r` in `direction`. */
  function Kicks(k: ShapeKey, r: int, direction: int): (ks: seq<Kick>)
    requires 0 <= r < 4 && direction in RotDir
    ensures |ks| == 5 && ks[0] == (0, 0)
  {
    KickList(k, r, direction);
    KickTable(k)[(r, (r + RotDir[direction]) % 4)]
  }

  /** The kick loop of `rotate` for a given kick list: commit the first kick that fits, or fail. */
  function TryKicks(p: Piece, direction: int, g: Grid, kicks: seq<Kick>): (Piece, bool)
    requires WellFormed(g) && 0 <= p.r < 4 && IsMatrix(p.matrix) && direction in RotDir
  {
    var newR := (p.r + RotDir[direction]) % 4;
    var m := Turned(p.matrix, direction);
    match FirstKick(g, Cells(m, p.x, p.y), kicks)
    case None => (p, false)
    case Some(i) => (p.(matrix := m, x := p.x + kicks[i].0, y := p.y + kicks[i].1, r := newR), true)
  }

  /**
   * `rotate(direction, board)` on a piece value: the new piece and the result.
   * A failed rotation returns the piece unchanged, because `rotate` turns the
   * matrix back with the inverse rotation.
   */
  function RotatePiece(p: Piece, direction: int, g: Grid): (Piece, bool)
    requires WellFormed(g) && 0 <= p.r < 4 && IsMatrix(p.matrix)
  {
    if direction !in RotDir then (p, false)
    else TryKicks(p, direction, g, Kicks(p.shapeKey, p.r, direction))
  }

  /** A quarter turn either way moves an orientation to the next or previous rotation state. */
  lemma OrientTurn(s: Matrix, r: int, direction: int)
    requires IsMatrix(s) && 0 <= r < 4 && direction in RotDir
    ensures Turned(Orient(s, r), direction) == Orient(s, (r + RotDir[direction]) % 4)
  {
    if direction == 1 {
      assert RotDir[direction] == 1;
      OrientCW(s, r);
    } else {
      assert RotDir[direction] == -1 && (r - 1) % 4 == (r + 3) % 4;
      OrientCCW(s, r);
    }
  }

  /** The kick loop either returns the piece untouched or commits the turned matrix and the new state. */
  lemma TryKicksShape(p: Piece, direction: int, g: Grid, kicks: seq<Kick>)
    requires WellFormed(g) && 0 <= p.r < 4 && IsMatrix(p.matrix) && direction in RotDir
    ensures var res := TryKicks(p, direction, g, kicks);
      && (!res.1 ==> res.0 == p)
      && (res.1 ==> res.0.matrix == Turned(p.matrix, direction) && res.0.r == (p.r + RotDir[direction]) % 4)
      && res.0.shapeKey == p.shapeKey && res.0.rotated == p.rotated
  {
    match FirstKick(g, Cells(Turned(p.matrix, direction), p.x, p.y), kicks)
    case None =>
    case Some(i) =>
  }

  /** The kick loop keeps the piece a turn of its spawn shape and, when it fails, changes nothing. */
  lemma TryKicksKeepsPiece(p: Piece, direction: int, g: Grid, kicks: seq<Kick>)
    requires WellFormed(g) && PieceOk(p) && direction in RotDir
    ensures PieceOk(TryKicks(p, direction, g, kicks).0)
    ensures TryKicks(p, direction, g, kicks).0.shapeKey == p.shapeKey
    ensures TryKicks(p, direction, g, kicks).0.rotated == p.rotated
    ensures !TryKicks(p, direction, g, kicks).1 ==> TryKicks(p, direction, g, kicks).0 == p
  {
    TryKicksShape(p, direction, g, kicks);
    var res := TryKicks(p, direction, g, kicks);
    if res.1 {
      TurnedOk(p, direction, res.0);
    }
  }

  /** A piece turned by one step, with the rotation state advanced to match, is still a turn of its spawn shape. */
  lemma TurnedOk(p: Piece, direction: int, q: Piece)
    requires PieceOk(p) && direction in RotDir
    requires q.shapeKey == p.shapeKey && q.matrix == Turned(p.matrix, direction)
    requires q.r == (p.r + RotDir[direction]) % 4
    ensures PieceOk(q)
  {
    OrientTurn(Shape(p.shapeKey), p.r, direction);
  }

  /**
   * `rotate` keeps the piece a turn of its spawn shape, never changes its shape
   * key or `rotated` flag, fails without change for a direction other than
   * +1/-1, and on failure leaves the piece as it was.
   */
  lemma RotateKeepsPiece(p: Piece, direction: int, g: Grid)
    requires WellFormed(g) && PieceOk(p)
    ensures PieceOk(RotatePiece(p, direction, g).0)
    ensures RotatePiece(p, direction, g).0.shapeKey == p.shapeKey
    ensures RotatePiece(p, direction, g).0.rotated == p.rotated
    ensures direction != 1 && direction != -1 ==> RotatePiece(p, direction, g) == (p, false)
    ensures !RotatePiece(p, direction, g).1 ==> RotatePiece(p, direction, g).0 == p
  {
    if direction in RotDir {
      TryKicksKeepsPiece(p, direction, g, Kicks(p.shapeKey, p.r, direction));
    }
  }

  /** The kick loop succeeds exactly when some kick fits, and then commits the first that does. */
  lemma TryKicksFacts(p: Piece, direction: int, g: Grid, kicks: seq<Kick>)
    requires WellFormed(g) && 0 <= p.r < 4 && IsMatrix(p.matrix) && (direction == 1 || direction == -1)
    ensures
      var m := if direction == 1 then RotCW(p.matrix) else RotCCW(p.matrix);
      var cells := Cells(m, p.x, p.y);
      && (TryKicks(p, direction, g, kicks).1 <==>
            exists i :: 0 <= i < |kicks| && Fits(g, cells, kicks[i].0, kicks[i].1))
      && (TryKicks(p, direction, g, kicks).1 ==>
            exists i :: 0 <= i < |kicks|
              && Fits(g, cells, kicks[i].0, kicks[i].1)
              && (forall j :: 0 <= j < i ==> !Fits(g, cells, kicks[j].0, kicks[j].1))
              && TryKicks(p, direction, g, kicks).0 ==
                 p.(matrix := m, x := p.x + kicks[i].0, y := p.y + kicks[i].1, r := (p.r + direction) % 4))
  {
    var m := Turned(p.matrix, direction);
    var cells := Cells(m, p.x, p.y);
    assert RotDir[direction] == direction;
    match FirstKick(g, cells, kicks)
    case None =>
    case Some(i) =>
      assert 0 <= i < |kicks| && Fits(g, cells, kicks[i].0, kicks[i].1);
  }

  /**
   * A rotation by +1/-1 tries the five kicks of the `(r, (r + direction) mod 4)`
   * list of the piece's table (`Kicks`). It succeeds exactly when one of them is valid
   * for the turned matrix; then `r` becomes `(r + direction) mod 4`, the matrix
   * is the turned one, and the origin moves by the first valid kick, every
   * earlier kick being invalid.
   */
  lemma RotateKicks(p: Piece, direction: int, g: Grid)
    requires WellFormed(g) && PieceOk(p) && (direction == 1 || direction == -1)
    ensures
      var newR := (p.r + direction) % 4;
      var m := if direction == 1 then RotCW(p.matrix) else RotCCW(p.matrix);
      var cells := Cells(m, p.x, p.y);
      var kicks := Kicks(p.shapeKey, p.r, direction);
      && (RotatePiece(p, direction, g).1 <==>
            exists i :: 0 <= i < |kicks| && Fits(g, cells, kicks[i].0, kicks[i].1))
      && (RotatePiece(p, direction, g).1 ==>
            exists i :: 0 <= i < |kicks|
              && Fits(g, cells, kicks[i].0, kicks[i].1)
              && (forall j :: 0 <= j < i ==> !Fits(g, cells, kicks[j].0, kicks[j].1))
              && RotatePiece(p, direction, g).0 ==
                 p.(matrix := m, x := p.x + kicks[i].0, y := p.y + kicks[i].1, r := newR))
  {
    TryKicksFacts(p, direction, g, Kicks(p.shapeKey, p.r, direction));
  }

  /**
   * "O" is not special-cased (`KickTable` gives it the JLSTZ kicks), yet since
   * every entry of its matrix is 4, a rotation leaves its matrix as it was.
   */
  lemma RotateOKeepsMatrix(p: Piece, direction: int, g: Grid)
    requires WellFormed(g) && PieceOk(p) && p.shapeKey == O
    ensures RotatePiece(p, direction, g).0.matrix == Shape(O)
  {
    OTurnsInPlace(p.r);
    if direction in RotDir {
      var kicks := Kicks(p.shapeKey, p.r, direction);
      TryKicksShape(p, direction, g, kicks);
      assert RotatePiece(p, direction, g) == TryKicks(p, direction, g, kicks);
    }
  }

  /** The kick loop stopping at kick `i`, the first that fits, commits that kick. */
  lemma TryKicksAt(p: Piece, direction: int, g: Grid, kicks: seq<Kick>, i: nat)
    requires WellFormed(g) && 0 <= p.r < 4 && IsMatrix(p.matrix) && direction in RotDir
    requires var cells := Cells(Turned(p.matrix, direction), p.x, p.y);
      && i < |kicks| && Fits(g, cells, kicks[i].0, kicks[i].1)
      && forall j :: 0 <= j < i ==> !Fits(g, cells, kicks[j].0, kicks[j].1)
    ensures TryKicks(p, direction, g, kicks) ==
      (p.(matrix := Turned(p.matrix, direction), x := p.x + kicks[i].0, y := p.y + kicks[i].1,
          r := (p.r + RotDir[direction]) % 4), true)
  {
    FirstKickIs(g, Cells(Turned(p.matrix, direction), p.x, p.y), kicks, i);
  }

  /** The kick loop running out of kicks fails and leaves the piece as it was. */
  lemma TryKicksNone(p: Piece, direction: int, g: Grid, kicks: seq<Kick>)
    requires WellFormed(g) && 0 <= p.r < 4 && IsMatrix(p.matrix) && direction in RotDir
    requires var cells := Cells(Turned(p.matrix, direction), p.x, p.y);
      forall j :: 0 <= j < |kicks| ==> !Fits(g, cells, kicks[j].0, kicks[j].1)
    ensures TryKicks(p, direction, g, kicks) == (p, false)
  {
    FirstKickNone(g, Cells(Turned(p.matrix, direction), p.x, p.y), kicks);
  }

  /** `Tetromino`: a shape key, the current matrix, the origin (x, y) and the rotation state r. */
  class Tetromino {
    const shapeKey: ShapeKey
    var matrix: Matrix
    var x: int
    var y: int
    var r: int
    /** Set by game.py on every spawn and successful rotation; false here until then. */
    var rotated: bool

    /** The piece as a value. */
    function View(): Piece
      reads this
    {
      Piece(shapeKey, matrix, x, y, r, rotated)
    }

    ghost predicate Valid()
      reads this
    {
      PieceOk(View())
    }

    /** `Tetromino(shape_key)`: a copy of the spawn matrix at origin (0, 0), rotation state 0. */
    constructor (k: ShapeKey)
      ensures Valid() && View() == Fresh(k)
    {
      shapeKey := k;
      matrix := Shape(k);
      x, y := 0, 0;
      r := 0;
      rotated := false;
    }

    /** `get_cells`. */
    function GetCells(): seq<Cell>
      reads this
    {
      Cells(matrix, x, y)
    }

    /** `_rot_cw`. */
    method RotCw()
      requires IsMatrix(matrix)
      modifies this`matrix
      ensures matrix == RotCW(old(matrix))
    {
      matrix := RotCW(matrix);
    }

    /** `_rot_ccw`. */
    method RotCcw()
      requires IsMatrix(matrix)
      modifies this`matrix
      ensures matrix == RotCCW(old(matrix))
    {
      matrix := RotCCW(matrix);
    }

    /**
     * `rotate(direction, board)`: turn the matrix, try the kicks of the
     * `(old r, new r)` transition in order, commit the first valid one; if none
     * is valid, turn the matrix back.
     */
    method Rotate(direction: int, board: Board) returns (ok: bool)
      requires Valid() && board.Valid()
      modifies this
      ensures Valid()
      ensures (View(), ok) == RotatePiece(old(View()), direction, board.grid)
    {
      if direction !in RotDir {
        return false;
      }
      var kicks := Kicks(shapeKey, r, direction);
      TryKicksKeepsPiece(View(), direction, board.grid, kicks);
      ok := TryKicksOn(direction, board, kicks);
    }

    /** The body of `rotate` once the kick list for the transition is looked up. */
    method TryKicksOn(direction: int, board: Board, kicks: seq<Kick>) returns (ok: bool)
      requires IsMatrix(matrix) && 0 <= r < 4 && board.Valid() && direction in RotDir
      modifies this
      ensures (View(), ok) == TryKicks(old(View()), direction, board.grid, kicks)
    {
      ghost var p := View();
      var newR := (r + RotDir[direction]) % 4;
      if direction == 1 {
        RotCw();
      } else {
        RotCcw();
      }
      var cells := GetCells();
      var i := 0;
      while i < |kicks|
        invariant 0 <= i <= |kicks|
        invariant matrix == Turned(p.matrix, direction) && x == p.x && y == p.y && r == p.r && rotated == p.rotated
        invariant forall j :: 0 <= j < i ==> !Fits(board.grid, cells, kicks[j].0, kicks[j].1)
      {
        var fits := board.ValidPosition(cells, kicks[i].0, kicks[i].1);
        if fits {
          TryKicksAt(p, direction, board.grid, kicks, i);
          x, y, r := x + kicks[i].0, y + kicks[i].1, newR;
          return true;
        }
        i := i + 1;
      }
      TryKicksNone(p, direction, board.grid, kicks);
      RotationsInverse(p.matrix);
      if direction == 1 {
        RotCcw();
      } else {
        RotCw();
      }
      return false;
    }
  }
}
