/**
 * The game-state rules of `TetrisGame` (game.py) on values: the state a game
 * holds after `start_game`, and what `spawn_piece`, `hold`, `move`, `rotate`,
 * `soft_drop`, `hard_drop`, `lock_piece`, `update_score`, the key handlers and
 * the per-frame auto-shift and gravity rules make of it. The class in game.dfy
 * is proved to follow these functions; the lemmas here state what they promise.
 *
 * Time is the parameter `now` (what `pygame.time.get_ticks()` returns), and the
 * shape key of the piece `random_tetromino()` would draw is the parameter `k`.
 */
module Session {
  import opened Wrappers
  import opened Geometry
  import opened Playfield
  import opened Pieces
  import opened Scoring

  /**
   * The input state of the event loop: `move_dir`, `das_timer`, `arr_timer`,
   * `down_pressed`, `down_start` and `down_delay`.
   */
  datatype Input = Input(moveDir: int, dasTimer: int, arrTimer: int, downPressed: bool, downStart: int, downDelay: int)

  /** The points display: `flash_points`, `flash_start_time` and `flash_duration_ms`. */
  datatype Flash = Flash(points: int, start: int, duration: int)

  /** A value snapshot of everything `TetrisGame` keeps for one game. */
  datatype GameView = GameView(
    grid: Grid, boardScore: int,
    current: Piece, next: Piece, hold: Option<Piece>, holdLocked: bool,
    tally: Tally,
    fallDelay: int, dropTimer: int, lockTimer: Option<int>,
    input: Input, inGame: bool, flash: Flash)

  /** The key intents the event loop reacts to, after looking the key up in the bindings. */
  datatype Key = LeftKey | RightKey | DownKey | RotateKey | HardDropKey | HoldKey | EscapeKey | OtherKey

  /** Every cell is between the walls and above the floor; cells above the board are allowed. */
  predicate InWalls(cells: seq<Cell>) {
    forall i :: 0 <= i < |cells| ==> 0 <= cells[i].col < Cols && cells[i].row < Rows
  }

  /** The bounding box of the piece lies between the walls and above the floor. */
  predicate Inside(p: Piece)
    requires |p.matrix| > 0
  {
    0 <= p.x && p.x + Width(p.matrix) <= Cols && p.y + |p.matrix| <= Rows
  }

  /** A cell of the piece from a nonzero entry is between the walls and above the floor. */
  lemma EntryInWalls(p: Piece, i: int, j: int)
    requires InWalls(PieceCells(p)) && 0 <= i < |p.matrix| && 0 <= j < |p.matrix[i]| && p.matrix[i][j] != 0
    ensures 0 <= p.x + j < Cols && p.y + i < Rows
  {
    var cells := PieceCells(p);
    CellsComplete(p.matrix, p.x, p.y);
    assert Cell(p.x + j, p.y + i, p.matrix[i][j]) in cells;
    var n :| 0 <= n < |cells| && cells[n] == Cell(p.x + j, p.y + i, p.matrix[i][j]);
  }

  /**
   * For a matrix without an empty border, the bounding box is inside exactly
   * when every cell of the piece is between the walls and above the floor.
   */
  lemma InsideCells(p: Piece)
    requires IsMatrix(p.matrix) && Tight(p.matrix)
    ensures Inside(p) <==> InWalls(PieceCells(p))
  {
    var m := p.matrix;
    TopCell(m, p.x, p.y);
    if InWalls(PieceCells(p)) {
      assert ColOccupied(m, 0);
      var i0 :| 0 <= i0 < |m| && m[i0][0] != 0;
      EntryInWalls(p, i0, 0);
      assert ColOccupied(m, Width(m) - 1);
      var i1 :| 0 <= i1 < |m| && m[i1][Width(m) - 1] != 0;
      EntryInWalls(p, i1, Width(m) - 1);
      assert RowOccupied(m[|m| - 1]);
      var j :| 0 <= j < |m[|m| - 1]| && m[|m| - 1][j] != 0;
      EntryInWalls(p, |m| - 1, j);
    }
  }

  /**
   * The invariant every reachable game state keeps: a 20 x 10 grid with no full
   * row; the active, next and held pieces are turns of their spawn shapes; the
   * next piece is still in rotation state 0; the active piece is between the
   * walls and above the floor; and the level is a tenth of the cleared lines.
   */
  ghost predicate ViewOk(v: GameView) {
    && Sound(v)
    && PieceOk(v.current) && PieceOk(v.next) && v.next.r == 0
    && (v.hold.Some? ==> PieceOk(v.hold.value))
    && v.tally.lines >= 0 && v.tally.level == v.tally.lines / 10
  }

  /**
   * The part of the invariant the rules themselves rely on: a 20 x 10 grid with
   * no full row, an active piece whose matrix has no empty border and at most
   * four rows, lies between the walls and above the floor and is in one of the
   * four rotation states, and a next and a held piece that are not empty.
   */
  ghost predicate Sound(v: GameView) {
    && WellFormed(v.grid) && NoFullRow(v.grid)
    && IsMatrix(v.current.matrix) && Tight(v.current.matrix) && |v.current.matrix| <= 4
    && 0 <= v.current.r < 4 && Inside(v.current)
    && |v.next.matrix| > 0
    && (v.hold.Some? ==> |v.hold.value.matrix| > 0)
  }

  // ---------------------------------------------------------------- spawning

  /** Centre the piece on the top of the board: x = 10 // 2 - width // 2, y = -2, not rotated. */
  function Place(p: Piece): Piece
    requires |p.matrix| > 0
  {
    p.(x := Cols / 2 - Width(p.matrix) / 2, y := -2, rotated := false)
  }

  /** `spawn_piece`: the next piece becomes active at the top, a new next piece is drawn, hold is unlocked. */
  function Spawn(v: GameView, k: ShapeKey): GameView
    requires WellFormed(v.grid) && |v.next.matrix| > 0
  {
    var c := Place(v.next);
    v.(current := c, next := Fresh(k), holdLocked := false,
       inGame := if Fits(v.grid, PieceCells(c), 0, 0) then v.inGame else false)
  }

  /** A placed piece of width at most 4 and height at most 4 is between the walls and above the floor. */
  lemma PlaceInWalls(p: Piece)
    requires PieceOk(p)
    ensures InWalls(PieceCells(Place(p)))
    ensures |p.matrix| > 0 && Inside(Place(p))
    ensures forall i :: 0 <= i < |PieceCells(Place(p))| ==> PieceCells(Place(p))[i].row < 2
  {
    PieceShape(p);
    var q := Place(p);
    TopCell(q.matrix, q.x, q.y);
  }

  /**
   * A spawned piece is always at a valid position: a fresh shape has at most two
   * rows, so at y = -2 all its cells are above the board, and they lie between
   * the walls. So `spawn_piece` never ends the game.
   */
  lemma SpawnAlwaysFits(v: GameView, k: ShapeKey)
    requires ViewOk(v)
    ensures Fits(v.grid, PieceCells(Place(v.next)), 0, 0)
    ensures Spawn(v, k).inGame == v.inGame
  {
    var q := Place(v.next);
    assert v.next.matrix == Shape(v.next.shapeKey);
    ShapeTight(v.next.shapeKey);
    TopCell(q.matrix, q.x, q.y);
    PlaceInWalls(v.next);
  }

  /**
   * `spawn_piece` makes the former next piece active at x = 10 // 2 - width // 2,
   * y = -2 with its `rotated` flag cleared, draws a fresh next piece, unlocks
   * hold, changes nothing else, and keeps the invariant.
   */
  lemma SpawnFacts(v: GameView, k: ShapeKey)
    requires ViewOk(v)
    ensures var w := Spawn(v, k);
      && w.current.shapeKey == v.next.shapeKey && w.current.matrix == v.next.matrix && w.current.r == v.next.r
      && w.current.x == 5 - Width(v.next.matrix) / 2 && w.current.y == -2 && !w.current.rotated
      && w.next == Fresh(k) && !w.holdLocked && w.inGame == v.inGame
      && w.(current := v.current, next := v.next, holdLocked := v.holdLocked) == v
      && ViewOk(w)
  {
    SpawnAlwaysFits(v, k);
    PlaceInWalls(v.next);
    PieceShape(v.next);
    PieceShape(Fresh(k));
  }

  /** `spawn_piece` keeps the invariant and the game running. */
  lemma SpawnOk(v: GameView, k: ShapeKey)
    requires ViewOk(v)
    ensures ViewOk(Spawn(v, k)) && Spawn(v, k).inGame == v.inGame
  {
    SpawnFacts(v, k);
  }

  // ---------------------------------------------------------------- start

  /**
   * `start_game`: an empty board, zeroed counters, the timers of a new game and
   * then `spawn_piece`. `k1` is the first piece drawn for `current`, which the
   * spawn replaces at once; `k2` becomes the active piece and `k3` the next one.
   */
  function Start(now: int, k1: ShapeKey, k2: ShapeKey, k3: ShapeKey): GameView {
    Spawn(Initial(now, k1, k2), k3).(inGame := true, flash := Flash(0, 0, FlashDuration))
  }

  /** The state `start_game` sets up before its spawn: `k1` active, `k2` next, the game not yet running. */
  function Initial(now: int, k1: ShapeKey, k2: ShapeKey): GameView {
    GameView(
      EmptyGrid(), 0,
      Fresh(k1), Fresh(k2), None, false,
      Tally(0, 0, 0, false),
      InitialFallDelay, now, None,
      Input(0, 0, 0, false, 0, InitialDownDelay),
      false, Flash(0, 0, FlashDuration))
  }

  /** A new game keeps the invariant. */
  lemma StartOk(now: int, k1: ShapeKey, k2: ShapeKey, k3: ShapeKey)
    ensures ViewOk(Start(now, k1, k2, k3))
  {
    StartFacts(now, k1, k2, k3, k1);
  }

  lemma EmptyGridOk()
    ensures WellFormed(EmptyGrid()) && NoFullRow(EmptyGrid())
  {
    var g := EmptyGrid();
    forall r | 0 <= r < |g|
      ensures !Full(g[r])
    {
      assert g[r][0] == 0;
    }
  }

  /**
   * A new game keeps the invariant, starts with no score, lines, level, hold or
   * back-to-back, has `k2` active at the top and `k3` next, is running, and does
   * not depend on the first piece drawn.
   */
  lemma StartFacts(now: int, k1: ShapeKey, k2: ShapeKey, k3: ShapeKey, k1': ShapeKey)
    ensures var v := Start(now, k1, k2, k3);
      && ViewOk(v) && v.inGame && v.grid == EmptyGrid()
      && v.tally == Tally(0, 0, 0, false) && v.hold.None? && !v.holdLocked
      && v.current == Place(Fresh(k2)) && v.next == Fresh(k3) && v.lockTimer.None? && v.dropTimer == now
      && v == Start(now, k1', k2, k3)
  {
    var v := Start(now, k1, k2, k3);
    var c := Place(Fresh(k2));
    EmptyGridOk();
    PlaceInWalls(Fresh(k2));
    assert PieceOk(c);
    PieceShape(c);
    PieceShape(Fresh(k3));
    assert v.current == c && v.next == Fresh(k3) && v.grid == EmptyGrid();
  }

  // ---------------------------------------------------------------- hold

  /**
   * `hold`: nothing when hold is locked; with an empty hold slot the active piece
   * is held and the next one spawned; otherwise the active and held pieces are
   * exchanged and the newly active one is placed at the top. Hold ends locked.
   */
  function Hold(v: GameView, k: ShapeKey): GameView
    requires WellFormed(v.grid) && |v.next.matrix| > 0 && (v.hold.Some? ==> |v.hold.value.matrix| > 0)
  {
    if v.holdLocked then v
    else if v.hold.None? then Spawn(v.(hold := Some(v.current)), k).(holdLocked := true)
    else v.(current := Place(v.hold.value), hold := Some(v.current), holdLocked := true)
  }

  /**
   * Hold always ends locked, and a second hold right after is a no-op, so two
   * holds in a row swap at most once.
   */
  lemma HoldOnce(v: GameView, k: ShapeKey, k': ShapeKey)
    requires ViewOk(v)
    ensures Hold(v, k).holdLocked
    ensures v.holdLocked ==> Hold(v, k) == v
    ensures Hold(Hold(v, k), k') == Hold(v, k)
  {
  }

  /**
   * The swap brings the held piece back with the matrix and rotation state it
   * was held in (only its position and `rotated` flag are reset), and leaves
   * the next piece and the lock timer alone. Holding again once hold is
   * unlocked gives back the piece that was active, re-placed at the top; after
   * a swap it also gives back the held piece, so nothing else has changed.
   */
  lemma HoldSwap(v: GameView, k: ShapeKey, k': ShapeKey)
    requires ViewOk(v) && !v.holdLocked
    ensures v.hold.Some? ==>
      var w := Hold(v, k);
      && w.current.matrix == v.hold.value.matrix && w.current.r == v.hold.value.r
      && w.next == v.next && w.lockTimer == v.lockTimer
    ensures
      var w := Hold(v, k);
      var u := Hold(w.(holdLocked := false), k');
      && u.current == Place(v.current) && u.grid == v.grid
      && (v.hold.Some? ==> u.hold == Some(Place(v.hold.value)) && u.(current := v.current, hold := v.hold, holdLocked := false) == v)
      && (v.hold.None? ==> u.hold == Some(Place(v.next)) && u.next == Fresh(k))
  {
    HoldOk(v, k);
  }

  /** Hold keeps the invariant and never stops the game. */
  lemma HoldOk(v: GameView, k: ShapeKey)
    requires ViewOk(v)
    ensures ViewOk(Hold(v, k)) && Hold(v, k).inGame == v.inGame
  {
    if !v.holdLocked {
      if v.hold.None? {
        SpawnFacts(v.(hold := Some(v.current)), k);
      } else {
        PlaceInWalls(v.hold.value);
        PieceShape(v.hold.value);
      }
    }
  }

  // ---------------------------------------------------------------- move and rotate

  /** `move(dx)`: shift the piece by dx columns if that position is valid, clearing the lock timer. */
  function Move(v: GameView, dx: int): GameView
    requires WellFormed(v.grid)
  {
    if Fits(v.grid, PieceCells(v.current), dx, 0)
    then v.(current := v.current.(x := v.current.x + dx), lockTimer := None)
    else v
  }

  /** A position reached by a valid offset is valid, hence between the walls and above the floor. */
  lemma FitsMoved(g: Grid, p: Piece, dx: int, dy: int)
    requires WellFormed(g) && Fits(g, PieceCells(p), dx, dy)
    ensures Fits(g, PieceCells(p.(x := p.x + dx, y := p.y + dy)), 0, 0)
    ensures InWalls(PieceCells(p.(x := p.x + dx, y := p.y + dy)))
  {
    CellsShift(p.matrix, p.x, p.y, dx, dy);
  }

  /** Shifting the piece to a valid position, clearing the lock timer, keeps the invariant. */
  lemma ShiftOk(v: GameView, dx: int, dy: int)
    requires ViewOk(v) && Fits(v.grid, PieceCells(v.current), dx, dy)
    ensures ViewOk(v.(current := v.current.(x := v.current.x + dx, y := v.current.y + dy), lockTimer := None))
  {
    FitsMoved(v.grid, v.current, dx, dy);
    InsideCells(v.current.(x := v.current.x + dx, y := v.current.y + dy));
  }

  /**
   * A move from a valid position can be undone: moving back by the opposite
   * amount restores the piece, and only the cleared lock timer remains.
   */
  lemma MoveUndo(v: GameView, dx: int)
    requires WellFormed(v.grid) && Fits(v.grid, PieceCells(v.current), 0, 0)
    requires Fits(v.grid, PieceCells(v.current), dx, 0)
    ensures Move(Move(v, dx), -dx) == v.(lockTimer := None)
  {
    var p := v.current;
    var q := p.(x := p.x + dx);
    CellsShift(p.matrix, p.x, p.y, dx, 0);
    var cs, ds := PieceCells(p), PieceCells(q);
    assert ds == Shift(cs, dx, 0);
    forall i | 0 <= i < |ds|
      ensures CellFree(v.grid, ds[i].col + -dx, ds[i].row + 0)
    {
      assert ds[i].col + -dx == cs[i].col + 0 && ds[i].row + 0 == cs[i].row + 0;
    }
    assert Fits(v.grid, ds, -dx, 0);
    assert q.(x := q.x + -dx) == p;
  }

  /** A move keeps the invariant and the game state. */
  lemma MoveOk(v: GameView, dx: int)
    requires ViewOk(v)
    ensures ViewOk(Move(v, dx)) && Move(v, dx).inGame == v.inGame
  {
    if Fits(v.grid, PieceCells(v.current), dx, 0) {
      ShiftOk(v, dx, 0);
      assert Move(v, dx) == v.(current := v.current.(x := v.current.x + dx, y := v.current.y + 0), lockTimer := None);
    }
  }

  /** `rotate(dir)`: on a successful piece rotation, clear the lock timer and mark the piece rotated. */
  function Rotate(v: GameView, direction: int): GameView
    requires WellFormed(v.grid) && 0 <= v.current.r < 4 && IsMatrix(v.current.matrix)
  {
    var (p, ok) := RotatePiece(v.current, direction, v.grid);
    if ok then v.(current := p.(rotated := true), lockTimer := None) else v
  }

  /** A committed kick leaves the piece at a valid position. */
  lemma TryKicksFits(p: Piece, direction: int, g: Grid, kicks: seq<Kick>)
    requires WellFormed(g) && 0 <= p.r < 4 && IsMatrix(p.matrix) && direction in RotDir
    requires TryKicks(p, direction, g, kicks).1
    ensures Fits(g, PieceCells(TryKicks(p, direction, g, kicks).0), 0, 0)
  {
    var m := Turned(p.matrix, direction);
    match FirstKick(g, Cells(m, p.x, p.y), kicks)
    case None =>
    case Some(i) =>
      FitsMoved(g, p.(matrix := m), kicks[i].0, kicks[i].1);
  }

  /** A rotated piece sits at a valid position. */
  lemma RotateFits(p: Piece, direction: int, g: Grid)
    requires WellFormed(g) && PieceOk(p)
    requires RotatePiece(p, direction, g).1
    ensures Fits(g, PieceCells(RotatePiece(p, direction, g).0), 0, 0)
  {
    TryKicksFits(p, direction, g, Kicks(p.shapeKey, p.r, direction));
  }

  /**
   * A rotation that fails changes nothing, and only a quarter turn either way
   * can succeed. A successful one leaves a piece of the same shape in the next
   * (or previous) rotation state, at a valid position, marked `rotated`, with
   * the lock timer cleared; nothing else in the game changes.
   */
  lemma RotateFacts(v: GameView, direction: int)
    requires ViewOk(v)
    ensures direction != 1 && direction != -1 ==> Rotate(v, direction) == v
    ensures !RotatePiece(v.current, direction, v.grid).1 ==> Rotate(v, direction) == v
    ensures RotatePiece(v.current, direction, v.grid).1 ==>
      var w := Rotate(v, direction);
      && PieceOk(w.current) && w.current.shapeKey == v.current.shapeKey
      && w.current.r == (v.current.r + direction) % 4
      && Fits(v.grid, PieceCells(w.current), 0, 0)
      && w.current.rotated && w.lockTimer.None?
      && w.(current := v.current, lockTimer := v.lockTimer) == v
  {
    var p := v.current;
    RotateKeepsPiece(p, direction, v.grid);
    var (q, ok) := RotatePiece(p, direction, v.grid);
    if ok {
      RotateFits(p, direction, v.grid);
      assert direction in RotDir && RotDir[direction] == direction;
      TryKicksShape(p, direction, v.grid, Kicks(p.shapeKey, p.r, direction));
      assert q.r == (p.r + direction) % 4;
      var w := v.(current := q.(rotated := true), lockTimer := None);
      assert Rotate(v, direction) == w;
      assert PieceCells(w.current) == PieceCells(q);
    }
  }

  /** A rotation keeps the invariant and the game state. */
  lemma RotateOk(v: GameView, direction: int)
    requires ViewOk(v)
    ensures ViewOk(Rotate(v, direction)) && Rotate(v, direction).inGame == v.inGame
  {
    RotateKeepsPiece(v.current, direction, v.grid);
    if RotatePiece(v.current, direction, v.grid).1 {
      RotateFits(v.current, direction, v.grid);
      var p := RotatePiece(v.current, direction, v.grid).0;
      PieceShape(p);
      assert PieceCells(p.(rotated := true)) == PieceCells(p);
      FitsInWalls(v.grid, PieceCells(p));
      InsideCells(p.(rotated := true));
    }
  }

  lemma FitsInWalls(g: Grid, cells: seq<Cell>)
    requires WellFormed(g) && Fits(g, cells, 0, 0)
    ensures InWalls(cells)
  {
    forall i | 0 <= i < |cells|
      ensures 0 <= cells[i].col < Cols && cells[i].row < Rows
    {
      assert CellFree(g, cells[i].col + 0, cells[i].row + 0);
    }
  }

  // ---------------------------------------------------------------- scoring

  /** `update_score(cleared, is_tspin)` on the game state; the flash fields record the points and the time. */
  function UpdateScore(v: GameView, cleared: int, tspin: bool, now: int): GameView
    requires 0 <= cleared <= 4
  {
    var (t, points) := Award(v.tally, cleared, tspin);
    if cleared == 0 then v.(tally := v.tally.(b2b := false))
    else v.(tally := t, flash := v.flash.(points := points, start := now))
  }

  /**
   * Clearing nothing only resets back-to-back; any clear adds the awarded points,
   * adds the lines, raises the level by at most one and keeps it a tenth of the
   * lines. Score and lines never decrease.
   */
  lemma UpdateScoreFacts(v: GameView, cleared: int, tspin: bool, now: int)
    requires 0 <= cleared <= 4 && v.tally.lines >= 0 && v.tally.level == v.tally.lines / 10
    ensures cleared == 0 ==> UpdateScore(v, cleared, tspin, now) == v.(tally := v.tally.(b2b := false))
    ensures var w := UpdateScore(v, cleared, tspin, now);
      && w.tally.score >= v.tally.score && w.tally.lines == v.tally.lines + cleared
      && v.tally.level <= w.tally.level <= v.tally.level + 1 && w.tally.level == w.tally.lines / 10
      && w.(tally := v.tally, flash := v.flash) == v
  {
    AwardLevel(v.tally, cleared, tspin);
  }

  /** `update_score` keeps the invariant and changes neither the pieces nor the game state. */
  lemma UpdateScoreOk(v: GameView, cleared: int, tspin: bool, now: int)
    requires ViewOk(v) && 0 <= cleared <= 4
    ensures ViewOk(UpdateScore(v, cleared, tspin, now))
    ensures UpdateScore(v, cleared, tspin, now).inGame == v.inGame
  {
    UpdateScoreFacts(v, cleared, tspin, now);
  }

  // ---------------------------------------------------------------- locking

  /** Cells between the walls and above the floor are on the board up to the first one above it. */
  lemma InWallsPrefix(cells: seq<Cell>)
    requires InWalls(cells)
    ensures OnBoard(cells[..FirstAbove(cells)])
  {
  }

  /** The active piece of a sound state has all its cells between the walls and above the floor. */
  lemma SoundInWalls(v: GameView)
    requires Sound(v)
    ensures InWalls(PieceCells(v.current))
    ensures OnBoard(PieceCells(v.current)[..FirstAbove(PieceCells(v.current))])
  {
    InsideCells(v.current);
    InWallsPrefix(PieceCells(v.current));
  }

  /**
   * A lock that does not end the game clears at most as many rows as the piece
   * has, so at most 4: no row was full before.
   */
  lemma LockBound(v: GameView)
    requires Sound(v)
    ensures OnBoard(PieceCells(v.current)[..FirstAbove(PieceCells(v.current))])
    ensures LockOutcome(v.grid, PieceCells(v.current)).0 <= 4
  {
    var p := v.current;
    var cells := PieceCells(p);
    SoundInWalls(v);
    LockFacts(v.grid, cells);
    if LockOutcome(v.grid, cells).0 != -1 {
      TopCell(p.matrix, p.x, p.y);
      LockClearBound(v.grid, cells, p.y, |p.matrix|);
    }
  }

  /**
   * The end of `lock_piece` once the board has written the piece and cleared
   * `cleared` rows: the T-spin test is made, the score updated and the next
   * piece spawned.
   */
  function Score(v: GameView, cleared: int, now: int, k: ShapeKey): GameView
    requires WellFormed(v.grid) && 0 <= cleared <= 4 && |v.next.matrix| > 0
  {
    var tspin := TSpinTest(NameAttribute, v.current.rotated, cleared);
    Spawn(UpdateScore(v, cleared, tspin, now), k)
  }

  /**
   * What `lock_piece` does after a lock without game over: the board holds the
   * grid `g` and its score grows by 100 per cleared line, then the clear is scored.
   */
  function Settle(v: GameView, g: Grid, cleared: int, now: int, k: ShapeKey): GameView
    requires WellFormed(g) && 0 <= cleared <= 4 && |v.next.matrix| > 0
  {
    Score(v.(grid := g, boardScore := v.boardScore + cleared * 100), cleared, now, k)
  }

  /**
   * `lock_piece`: the board writes the piece; on game over (-1) the game stops
   * with the partly written grid; otherwise the clear is settled.
   */
  function Lock(v: GameView, now: int, k: ShapeKey): GameView
    requires Sound(v)
  {
    var cells := PieceCells(v.current);
    SoundInWalls(v);
    LockFacts(v.grid, cells);
    LockBound(v);
    var (cleared, g) := LockOutcome(v.grid, cells);
    if cleared == -1 then v.(grid := g, inGame := false)
    else Settle(v, g, cleared, now, k)
  }

  /** What `lock_piece` needs to know before it writes the active piece: its cells up to the first one above the board are on the board, and it clears at most 4 rows. */
  lemma LockStep(v: GameView)
    requires Sound(v)
    ensures OnBoard(PieceCells(v.current)[..FirstAbove(PieceCells(v.current))])
    ensures -1 <= LockOutcome(v.grid, PieceCells(v.current)).0 <= 4
  {
    var cells := PieceCells(v.current);
    SoundInWalls(v);
    LockFacts(v.grid, cells);
    LockBound(v);
  }

  /**
   * The cells of a piece are enumerated top row first, so either the first cell
   * is already above the board or none is: `lock_piece` never writes part of a
   * piece before it signals game over. The game is over exactly when the
   * piece's top row is above the board.
   */
  lemma LockAllOrNothing(p: Piece)
    requires PieceOk(p)
    ensures var cells := PieceCells(p);
      && FirstAbove(cells) == (if p.y < 0 then 0 else |cells|)
      && (p.y < 0 <==> exists i :: 0 <= i < |cells| && cells[i].row < 0)
  {
    PieceShape(p);
    var cells := PieceCells(p);
    TopCell(p.matrix, p.x, p.y);
    if p.y < 0 {
      assert cells[0].row < 0;
    } else {
      var k := FirstAbove(cells);
      if k < |cells| {
        assert false;
      }
    }
  }

  /** A lock with the piece's top row above the board ends the game and changes nothing else, the grid included. */
  lemma LockGameOver(v: GameView, now: int, k: ShapeKey)
    requires ViewOk(v) && v.current.y < 0
    ensures OnBoard(PieceCells(v.current)[..FirstAbove(PieceCells(v.current))])
    ensures LockOutcome(v.grid, PieceCells(v.current)) == (-1, v.grid)
    ensures Lock(v, now, k) == v.(inGame := false)
  {
    var cells := PieceCells(v.current);
    SoundInWalls(v);
    LockAllOrNothing(v.current);
    assert cells[..0] == [];
    assert LockOutcome(v.grid, cells) == (-1, v.grid);
  }

  /** With the whole piece on the board, `lock_piece` reaches every cell. */
  lemma LandsOnBoard(v: GameView)
    requires ViewOk(v) && v.current.y >= 0
    ensures OnBoard(PieceCells(v.current)) && FirstAbove(PieceCells(v.current)) == |PieceCells(v.current)|
  {
    LockAllOrNothing(v.current);
    SoundInWalls(v);
    assert PieceCells(v.current)[..|PieceCells(v.current)|] == PieceCells(v.current);
  }

  /** The grid with the whole active piece written into it. */
  function Landed(v: GameView): (g: Grid)
    requires ViewOk(v) && v.current.y >= 0
    ensures WellFormed(g)
  {
    LandsOnBoard(v);
    WriteCells(v.grid, PieceCells(v.current))
  }

  /** With the whole piece on the board, `lock_piece` writes every cell and clears the full rows, at most 4. */
  lemma LockOutcomeLands(v: GameView)
    requires ViewOk(v) && v.current.y >= 0
    ensures OnBoard(PieceCells(v.current))
    ensures 0 <= FullCount(Landed(v)) <= 4 && WellFormed(Compact(Landed(v))) && NoFullRow(Compact(Landed(v)))
    ensures LockOutcome(v.grid, PieceCells(v.current)) == (FullCount(Landed(v)), Compact(Landed(v)))
  {
    var cells := PieceCells(v.current);
    LockAllOrNothing(v.current);
    LandsOnBoard(v);
    LockFacts(v.grid, cells);
    LockBound(v);
    assert Landed(v) == WriteCells(v.grid, cells);
    CompactFacts(Landed(v));
  }

  /** A lock with the whole piece on the board settles the clear of the written grid. */
  lemma LockSettles(v: GameView, now: int, k: ShapeKey)
    requires ViewOk(v) && v.current.y >= 0
    ensures 0 <= FullCount(Landed(v)) <= 4 && WellFormed(Compact(Landed(v))) && NoFullRow(Compact(Landed(v)))
    ensures |v.next.matrix| > 0
    ensures Lock(v, now, k) == Settle(v, Compact(Landed(v)), FullCount(Landed(v)), now, k)
  {
    LockOutcomeLands(v);
    PieceShape(v.next);
  }

  /** Settling never scores a T-spin. */
  lemma SettleNoTSpin(v: GameView, g: Grid, cleared: int, now: int, k: ShapeKey)
    requires WellFormed(g) && 0 <= cleared <= 4 && |v.next.matrix| > 0
    ensures Settle(v, g, cleared, now, k) ==
      Spawn(UpdateScore(v.(grid := g, boardScore := v.boardScore + cleared * 100), cleared, false, now), k)
  {
    TSpinNever(v.current.rotated, cleared);
  }

  /** Settling a clear on a grid without full rows keeps the invariant and the game running. */
  lemma SettleOk(v: GameView, g: Grid, cleared: int, now: int, k: ShapeKey)
    requires ViewOk(v) && WellFormed(g) && NoFullRow(g) && 0 <= cleared <= 4
    ensures ViewOk(Settle(v, g, cleared, now, k)) && Settle(v, g, cleared, now, k).inGame == v.inGame
  {
    var u := v.(grid := g, boardScore := v.boardScore + cleared * 100);
    var tspin := TSpinTest(NameAttribute, v.current.rotated, cleared);
    assert ViewOk(u);
    UpdateScoreOk(u, cleared, tspin, now);
    var s := UpdateScore(u, cleared, tspin, now);
    SpawnOk(s, k);
    assert Settle(v, g, cleared, now, k) == Spawn(s, k);
  }

  /** A lock that lands keeps the invariant and the game running. */
  lemma LockLandsOk(v: GameView, now: int, k: ShapeKey)
    requires ViewOk(v) && v.current.y >= 0
    ensures ViewOk(Lock(v, now, k)) && Lock(v, now, k).inGame == v.inGame
  {
    LockSettles(v, now, k);
    SettleOk(v, Compact(Landed(v)), FullCount(Landed(v)), now, k);
  }

  /** A lock keeps the invariant and never restarts a stopped game. */
  lemma LockOk(v: GameView, now: int, k: ShapeKey)
    requires ViewOk(v)
    ensures ViewOk(Lock(v, now, k))
    ensures Lock(v, now, k).inGame ==> v.inGame
  {
    if v.current.y < 0 {
      LockGameOver(v, now, k);
    } else {
      LockLandsOk(v, now, k);
    }
  }

  // ---------------------------------------------------------------- drops

  /** A piece that can move one row down has its top row above the floor's last row. */
  lemma FitsAboveFloor(g: Grid, m: Matrix, x: int, y: int)
    requires WellFormed(g) && IsMatrix(m) && Tight(m) && Fits(g, Cells(m, x, y), 0, 1)
    ensures y + 1 < Rows
  {
    TopCell(m, x, y);
    assert CellFree(g, Cells(m, x, y)[0].col, Cells(m, x, y)[0].row + 1);
  }

  /** The row `hard_drop` stops at: move down while one row down is valid. */
  function DropY(g: Grid, m: Matrix, x: int, y: int): (y': int)
    requires WellFormed(g) && IsMatrix(m) && Tight(m)
    ensures y' >= y
    decreases Rows - y
  {
    if Fits(g, Cells(m, x, y), 0, 1) then
      FitsAboveFloor(g, m, x, y);
      DropY(g, m, x, y + 1)
    else y
  }

  /** `hard_drop` stops at a row from which one more row down is invalid. */
  lemma {:induction false} DropStops(g: Grid, m: Matrix, x: int, y: int)
    requires WellFormed(g) && IsMatrix(m) && Tight(m)
    ensures !Fits(g, Cells(m, x, DropY(g, m, x, y)), 0, 1)
    decreases Rows - y
  {
    if Fits(g, Cells(m, x, y), 0, 1) {
      FitsAboveFloor(g, m, x, y);
      assert DropY(g, m, x, y) == DropY(g, m, x, y + 1);
      DropStops(g, m, x, y + 1);
    }
  }

  /** Every row `hard_drop` passed could go one row further, so it stops at the first row that cannot. */
  lemma {:induction false} DropPasses(g: Grid, m: Matrix, x: int, y: int)
    requires WellFormed(g) && IsMatrix(m) && Tight(m)
    ensures forall d :: y <= d < DropY(g, m, x, y) ==> Fits(g, Cells(m, x, d), 0, 1)
    decreases Rows - y
  {
    if Fits(g, Cells(m, x, y), 0, 1) {
      FitsAboveFloor(g, m, x, y);
      var e := DropY(g, m, x, y + 1);
      assert DropY(g, m, x, y) == e;
      DropPasses(g, m, x, y + 1);
      forall d | y <= d < e
        ensures Fits(g, Cells(m, x, d), 0, 1)
      {
        if d != y {
          assert y + 1 <= d < e;
        }
      }
    }
  }

  /** Both halves together. */
  lemma DropFacts(g: Grid, m: Matrix, x: int, y: int)
    requires WellFormed(g) && IsMatrix(m) && Tight(m)
    ensures !Fits(g, Cells(m, x, DropY(g, m, x, y)), 0, 1)
    ensures forall d :: y <= d < DropY(g, m, x, y) ==> Fits(g, Cells(m, x, d), 0, 1)
  {
    DropStops(g, m, x, y);
    DropPasses(g, m, x, y);
  }

  /** A piece between the walls stays between the walls when dropped. */
  lemma {:induction false} DropInside(g: Grid, p: Piece)
    requires WellFormed(g) && IsMatrix(p.matrix) && Tight(p.matrix) && Inside(p)
    ensures Inside(p.(y := DropY(g, p.matrix, p.x, p.y)))
    decreases Rows - p.y
  {
    if Fits(g, PieceCells(p), 0, 1) {
      FitsMoved(g, p, 0, 1);
      assert p.(x := p.x + 0, y := p.y + 1) == p.(y := p.y + 1);
      InsideCells(p.(y := p.y + 1));
      DropInside(g, p.(y := p.y + 1));
    }
  }

  /** The state just before `hard_drop` locks: the piece moved down to its drop row. */
  function Dropped(v: GameView): (w: GameView)
    requires Sound(v)
    ensures Sound(w)
  {
    var p := v.current;
    DropInside(v.grid, p);
    v.(current := p.(y := DropY(v.grid, p.matrix, p.x, p.y)))
  }

  /** `hard_drop`: drop the piece as far as it goes, then lock it. */
  function HardDrop(v: GameView, now: int, k: ShapeKey): GameView
    requires Sound(v)
  {
    Lock(Dropped(v), now, k)
  }

  /** On the empty board, a piece between the walls drops until its bottom row is row 19. */
  lemma {:induction false} DropEmpty(m: Matrix, x: int, y: int)
    requires IsMatrix(m) && Tight(m) && 0 <= x && x + Width(m) <= Cols && y + |m| <= Rows
    ensures DropY(EmptyGrid(), m, x, y) == Rows - |m|
    decreases Rows - y
  {
    var g := EmptyGrid();
    EmptyGridOk();
    var cells := Cells(m, x, y);
    TopCell(m, x, y);
    FitsEmpty(cells, 0, 1);
    if y + |m| < Rows {
      assert Fits(g, cells, 0, 1);
      DropEmpty(m, x, y + 1);
    } else {
      var last := |m| - 1;
      assert RowOccupied(m[last]);
      var j :| 0 <= j < |m[last]| && m[last][j] != 0;
      CellsComplete(m, x, y);
      var c := Cell(x + j, y + last, m[last][j]);
      assert c in cells;
      var i :| 0 <= i < |cells| && cells[i] == c;
      assert cells[i].row + 1 >= Rows;
    }
  }

  /**
   * An O spawned on the empty board and hard-dropped lands in rows 18-19,
   * columns 4-5; locking it there clears nothing and leaves the two bottom
   * rows holding the O's colour in those columns, every other row empty.
   */
  lemma HardDropO()
    ensures Place(Fresh(O)).x == 4 && Place(Fresh(O)).y == -2
    ensures IsMatrix(Shape(O)) && Tight(Shape(O)) && DropY(EmptyGrid(), Shape(O), 4, -2) == 18
    ensures Cells(Shape(O), 4, 18) == [Cell(4, 18, 4), Cell(5, 18, 4), Cell(4, 19, 4), Cell(5, 19, 4)]
    ensures var (cleared, g) := LockOutcome(EmptyGrid(), Cells(Shape(O), 4, 18));
      && cleared == 0 && |g| == Rows
      && g[18] == [0, 0, 0, 0, 4, 4, 0, 0, 0, 0] && g[19] == g[18]
      && forall r :: 0 <= r < 18 ==> g[r] == EmptyRow()
  {
    ShapeTight(O);
    EmptyGridOk();
    DropEmpty(Shape(O), 4, -2);
    CellsOfO();
    CellsShift(Shape(O), 0, 0, 4, 18);
    LockO();
  }

  /** The four cells of an O at rows 18-19, columns 4-5. */
  function OCells(): seq<Cell> {
    [Cell(4, 18, 4), Cell(5, 18, 4), Cell(4, 19, 4), Cell(5, 19, 4)]
  }

  /** Writing them into the empty grid fills columns 4-5 of rows 18 and 19. */
  lemma OBottomRow(r: int)
    requires r == 18 || r == 19
    ensures WellFormed(EmptyGrid()) && OnBoard(OCells())
    ensures WriteCells(EmptyGrid(), OCells())[r] == [0, 0, 0, 0, 4, 4, 0, 0, 0, 0]
  {
    var cs := OCells();
    EmptyGridOk();
    WriteCellsAt(EmptyGrid(), cs);
    var w := WriteCells(EmptyGrid(), cs);
    var bottom := [0, 0, 0, 0, 4, 4, 0, 0, 0, 0];
    forall c | 0 <= c < Cols
      ensures w[r][c] == bottom[c]
    {
      if c == 4 || c == 5 {
        var i := 2 * (r - 18) + (c - 4);
        assert cs[i].row == r && cs[i].col == c;
      }
    }
  }

  /** Locking an O at rows 18-19, columns 4-5 of the empty grid. */
  lemma LockO()
    ensures OnBoard(OCells()[..FirstAbove(OCells())])
    ensures var (cleared, g) := LockOutcome(EmptyGrid(), OCells());
      && cleared == 0 && |g| == Rows
      && g[18] == [0, 0, 0, 0, 4, 4, 0, 0, 0, 0] && g[19] == g[18]
      && forall r :: 0 <= r < 18 ==> g[r] == EmptyRow()
  {
    var cs, e := OCells(), EmptyGrid();
    EmptyGridOk();
    assert OnBoard(cs) && cs[..FirstAbove(cs)] == cs;
    LockFacts(e, cs);
    var w := WriteCells(e, cs);
    OBottomRow(18);
    OBottomRow(19);
    forall r | 0 <= r < 18
      ensures w[r] == EmptyRow()
    {
      WriteCellsOutside(e, cs, r);
    }
    assert NoFullRow(w) by {
      forall r | 0 <= r < |w|
        ensures !Full(w[r])
      {
        assert w[r][0] == 0;
      }
    }
    CompactNoFull(w);
  }

  /**
   * `hard_drop` locks the piece at its drop row: the row from which one more
   * row down is invalid.
   */
  lemma HardDropFacts(v: GameView, now: int, k: ShapeKey)
    requires ViewOk(v)
    ensures var p := Dropped(v).current;
      && Dropped(v) == v.(current := p) && p == v.current.(y := p.y) && p.y >= v.current.y
      && !Fits(v.grid, PieceCells(p), 0, 1)
    ensures HardDrop(v, now, k) == Lock(Dropped(v), now, k)
  {
    PieceShape(v.current);
    DropStops(v.grid, v.current.matrix, v.current.x, v.current.y);
  }

  /** A hard drop keeps the invariant and never restarts a stopped game. */
  lemma HardDropOk(v: GameView, now: int, k: ShapeKey)
    requires ViewOk(v)
    ensures ViewOk(HardDrop(v, now, k)) && (HardDrop(v, now, k).inGame ==> v.inGame)
  {
    LockOk(Dropped(v), now, k);
  }

  /**
   * `soft_drop`: move down one row if that is valid, clearing the lock timer;
   * otherwise arm the lock timer, or lock once it has run for the lock delay.
   */
  function SoftDrop(v: GameView, now: int, k: ShapeKey): GameView
    requires Sound(v)
  {
    if Fits(v.grid, PieceCells(v.current), 0, 1) then
      v.(current := v.current.(y := v.current.y + 1), lockTimer := None)
    else Blocked(v, now, k)
  }

  /** The blocked branch of `soft_drop`: arm the lock timer, or lock once it has run for the lock delay. */
  function Blocked(v: GameView, now: int, k: ShapeKey): GameView
    requires Sound(v)
  {
    if v.lockTimer.None? then v.(lockTimer := Some(now))
    else if LockExpired(now, v.lockTimer.value) then Lock(v, now, k)
    else v
  }

  /**
   * A soft drop that can move takes one row of the hard-drop path: the piece
   * ends one row lower, and a hard drop from there lands where it would have
   * from the start.
   */
  lemma SoftDropStep(v: GameView, now: int, k: ShapeKey)
    requires ViewOk(v) && Fits(v.grid, PieceCells(v.current), 0, 1)
    ensures var w := SoftDrop(v, now, k);
      && w.current.y == v.current.y + 1 && Sound(w)
      && Dropped(w) == Dropped(v).(lockTimer := None)
  {
    var p := v.current;
    ShiftOk(v, 0, 1);
    var w := SoftDrop(v, now, k);
    assert w == v.(current := p.(x := p.x + 0, y := p.y + 1), lockTimer := None);
    assert DropY(v.grid, p.matrix, p.x, p.y) == DropY(v.grid, p.matrix, p.x, p.y + 1);
  }

  /**
   * A blocked soft drop whose lock delay has run out locks the piece where it
   * is, exactly as a hard drop would.
   */
  lemma SoftDropLocks(v: GameView, now: int, k: ShapeKey)
    requires ViewOk(v) && !Fits(v.grid, PieceCells(v.current), 0, 1)
    requires v.lockTimer.Some? && LockExpired(now, v.lockTimer.value)
    ensures SoftDrop(v, now, k) == HardDrop(v, now, k)
  {
    var p := v.current;
    assert DropY(v.grid, p.matrix, p.x, p.y) == p.y;
    assert Dropped(v) == v;
  }

  /** A soft drop keeps the invariant and never restarts a stopped game. */
  lemma SoftDropOk(v: GameView, now: int, k: ShapeKey)
    requires ViewOk(v)
    ensures ViewOk(SoftDrop(v, now, k)) && (SoftDrop(v, now, k).inGame ==> v.inGame)
  {
    if Fits(v.grid, PieceCells(v.current), 0, 1) {
      ShiftOk(v, 0, 1);
      assert v.current.(x := v.current.x + 0, y := v.current.y + 1) == v.current.(y := v.current.y + 1);
    } else {
      BlockedOk(v, now, k);
    }
  }

  /** The blocked branch keeps the invariant and never restarts a stopped game. */
  lemma BlockedOk(v: GameView, now: int, k: ShapeKey)
    requires ViewOk(v)
    ensures ViewOk(Blocked(v, now, k)) && (Blocked(v, now, k).inGame ==> v.inGame)
  {
    if v.lockTimer.Some? && LockExpired(now, v.lockTimer.value) {
      LockOk(v, now, k);
    }
  }

  /** A blocked piece first arms the timer; a second soft drop less than 500 ms later changes nothing. */
  lemma LockDelayHolds(v: GameView, t1: int, t2: int, k: ShapeKey, k': ShapeKey)
    requires ViewOk(v) && !Fits(v.grid, PieceCells(v.current), 0, 1) && v.lockTimer.None?
    requires t2 - t1 < LockDelay
    ensures SoftDrop(v, t1, k).lockTimer == Some(t1)
    ensures SoftDrop(SoftDrop(v, t1, k), t2, k') == SoftDrop(v, t1, k)
  {
    var w := SoftDrop(v, t1, k);
    assert w == v.(lockTimer := Some(t1));
    assert PieceCells(w.current) == PieceCells(v.current);
  }

  // ---------------------------------------------------------------- the main loop

  /** The DAS/ARR rule: while a direction is held, move once the charge and the repeat interval have passed. */
  function AutoShift(v: GameView, now: int): GameView
    requires WellFormed(v.grid)
  {
    var i := v.input;
    if i.moveDir != 0 && ShiftDue(now, i.dasTimer, i.arrTimer)
    then Move(v, i.moveDir).(input := i.(arrTimer := now))
    else v
  }

  /**
   * Auto-shift moves only when a direction is held, at least 200 ms passed since
   * the key went down and at least 40 ms since the last repeat; then the repeat
   * timer restarts. It keeps the invariant.
   */
  lemma AutoShiftFacts(v: GameView, now: int)
    requires ViewOk(v)
    ensures AutoShift(v, now) != v ==>
      v.input.moveDir != 0 && now - v.input.dasTimer >= 200 && now - v.input.arrTimer >= 40
      && AutoShift(v, now).input == v.input.(arrTimer := now)
    ensures (v.input.moveDir == 0 || now - v.input.dasTimer < 200 || now - v.input.arrTimer < 40) ==> AutoShift(v, now) == v
    ensures ViewOk(AutoShift(v, now)) && AutoShift(v, now).inGame == v.inGame
  {
    MoveOk(v, v.input.moveDir);
  }

  /** The delays gravity records: `max(50, scaled)`, and the down-key delay while the key is held. */
  function Delays(v: GameView, now: int, scaled: int): GameView {
    v.(fallDelay := FallDelay(scaled),
       input := if v.input.downPressed then v.input.(downDelay := DownDelay(now - v.input.downStart)) else v.input)
  }

  /** Recording the delays keeps the invariant. */
  lemma DelaysOk(v: GameView, now: int, scaled: int)
    requires ViewOk(v)
    ensures ViewOk(Delays(v, now, scaled)) && Delays(v, now, scaled).inGame == v.inGame
  {
  }

  /**
   * Gravity: set the fall delay to `max(50, scaled)`, where `scaled` is the value
   * of the float expression `int(base_delay * 0.85 ** level)`; while the down
   * key is held, use the down-key delay instead; soft-drop once strictly more
   * than the delay has passed since the last drop, and restart the drop timer.
   */
  function Gravity(v: GameView, now: int, scaled: int, k: ShapeKey): GameView
    requires Sound(v)
  {
    var v1 := Delays(v, now, scaled);
    var delay := if v.input.downPressed then v1.input.downDelay else v1.fallDelay;
    assert Sound(v1);
    if GravityDue(now, v.dropTimer, delay) then SoftDrop(v1, now, k).(dropTimer := now) else v1
  }

  /**
   * Gravity drops only once strictly more than the delay has passed; the delay
   * is at least 50 ms without the down key and between 20 and 120 ms with it held
   * (for a timer that is not ahead of the clock).
   */
  lemma GravityFacts(v: GameView, now: int, scaled: int, k: ShapeKey)
    requires ViewOk(v)
    ensures var w := Delays(v, now, scaled);
      && w.fallDelay >= 50
      && (v.input.downPressed && now >= v.input.downStart ==> 20 <= w.input.downDelay <= 120)
      && (now - v.dropTimer <= (if v.input.downPressed then w.input.downDelay else w.fallDelay) ==> Gravity(v, now, scaled, k) == w)
      && (now - v.dropTimer > (if v.input.downPressed then w.input.downDelay else w.fallDelay) ==>
            Gravity(v, now, scaled, k) == SoftDrop(w, now, k).(dropTimer := now))
  {
    if v.input.downPressed && now >= v.input.downStart {
      DownDelayBounds(now - v.input.downStart);
    }
  }

  /** Gravity keeps the invariant and never restarts a stopped game. */
  lemma GravityOk(v: GameView, now: int, scaled: int, k: ShapeKey)
    requires ViewOk(v)
    ensures ViewOk(Gravity(v, now, scaled, k)) && (Gravity(v, now, scaled, k).inGame ==> v.inGame)
  {
    var v1 := Delays(v, now, scaled);
    assert ViewOk(v1);
    SoftDropOk(v1, now, k);
  }

  /**
   * Pressing left (-1) or right (+1): remember the direction, move once, and
   * start both auto-shift timers at `now`.
   */
  function Press(v: GameView, dir: int, now: int): GameView
    requires WellFormed(v.grid)
  {
    Move(v.(input := v.input.(moveDir := dir, dasTimer := now, arrTimer := now)), dir)
  }

  /** A press keeps the invariant and the game state. */
  lemma PressOk(v: GameView, dir: int, now: int)
    requires ViewOk(v)
    ensures ViewOk(Press(v, dir, now)) && Press(v, dir, now).inGame == v.inGame
  {
    MoveOk(v.(input := v.input.(moveDir := dir, dasTimer := now, arrTimer := now)), dir);
  }

  /** One key-down event, as the event loop dispatches it. */
  function KeyDown(v: GameView, key: Key, now: int, k: ShapeKey): GameView
    requires Sound(v)
  {
    match key
    case LeftKey => Press(v, -1, now)
    case RightKey => Press(v, 1, now)
    case DownKey => v.(input := v.input.(downPressed := true, downStart := now, downDelay := InitialDownDelay))
    case RotateKey => Rotate(v, 1)
    case HardDropKey => HardDrop(v, now, k)
    case HoldKey => Hold(v, k)
    case EscapeKey => v.(inGame := false)
    case OtherKey => v
  }

  /** One key-up event: releasing left or right stops auto-shift, releasing down stops the fast drop. */
  function KeyUp(v: GameView, key: Key): GameView {
    match key
    case LeftKey => v.(input := v.input.(moveDir := 0))
    case RightKey => v.(input := v.input.(moveDir := 0))
    case DownKey => v.(input := v.input.(downPressed := false))
    case _ => v
  }

  /**
   * Releasing left or right stops auto-shift: no auto-shift step moves the
   * piece afterwards. Releasing down puts gravity back on the fall delay. A
   * release keeps the invariant and never touches the board or the pieces.
   */
  lemma KeyUpFacts(v: GameView, key: Key, now: int, scaled: int)
    requires ViewOk(v)
    ensures var w := KeyUp(v, key);
      && ViewOk(w) && w.inGame == v.inGame
      && w.grid == v.grid && w.current == v.current && w.next == v.next && w.hold == v.hold
      && (key == LeftKey || key == RightKey ==> AutoShift(w, now) == w)
      && (key == DownKey ==> Delays(w, now, scaled) == w.(fallDelay := FallDelay(scaled)))
  {
  }

  /** Every key-down event keeps the invariant; only escape or a hard drop can stop the game. */
  lemma KeyDownOk(v: GameView, key: Key, now: int, k: ShapeKey)
    requires ViewOk(v)
    ensures ViewOk(KeyDown(v, key, now, k))
    ensures KeyDown(v, key, now, k).inGame ==> v.inGame
    ensures key != EscapeKey && key != HardDropKey ==> KeyDown(v, key, now, k).inGame == v.inGame
  {
    var w := KeyDown(v, key, now, k);
    var r: GameView;
    match key {
      case LeftKey =>
        PressOk(v, -1, now);
        r := Press(v, -1, now);
      case RightKey =>
        PressOk(v, 1, now);
        r := Press(v, 1, now);
      case DownKey =>
        r := v.(input := v.input.(downPressed := true, downStart := now, downDelay := InitialDownDelay));
      case RotateKey =>
        RotateOk(v, 1);
        r := Rotate(v, 1);
      case HardDropKey =>
        HardDropOk(v, now, k);
        r := HardDrop(v, now, k);
      case HoldKey =>
        HoldOk(v, k);
        r := Hold(v, k);
      case EscapeKey =>
        r := v.(inGame := false);
      case OtherKey =>
        r := v;
    }
    assert w == r;
    assert ViewOk(r) && (r.inGame ==> v.inGame) && (key != EscapeKey && key != HardDropKey ==> r.inGame == v.inGame);
  }
}
