/**
 * `TetrisGame` (game.py) as a class: the board and the active, next and held
 * pieces are objects it updates in place, as the source does. Every method is
 * proved to leave the game in the state the matching function of `Session`
 * describes, and to keep the game invariant `Session.ViewOk`.
 *
 * Time is the parameter `now`, the shape key `random_tetromino()` would draw
 * is the parameter `k`, and `scaled` stands for the float expression
 * `int(base_delay * 0.85 ** level)` of the gravity rule.
 */
module Game {
  import opened Wrappers
  import opened Geometry
  import opened Playfield
  import opened Pieces
  import opened Scoring
  import Session

  class TetrisGame {
    var board: Board
    var current: Tetromino
    var nextPiece: Tetromino
    var holdPiece: Tetromino?
    var holdLocked: bool
    /** `score`, `lines`, `level` and `b2b`, kept together as one record. */
    var tally: Tally
    var fallDelay: int
    var dropTimer: int
    /** `lock_timer`; `None` stands for Python's `None`. */
    var lockTimer: Option<int>
    /** `move_dir`, `das_timer`, `arr_timer`, `down_pressed`, `down_start` and `down_delay`. */
    var input: Session.Input
    var inGame: bool
    /** `flash_points`, `flash_start_time` and `flash_duration_ms`. */
    var flash: Session.Flash

    /** The held piece as a value, `None` for an empty slot. */
    function HoldView(): Option<Piece>
      reads this, holdPiece
    {
      if holdPiece == null then None else Some(holdPiece.View())
    }

    /** The whole game as a value. */
    function View(): Session.GameView
      reads this, board, current, nextPiece, holdPiece
    {
      Session.GameView(
        board.grid, board.score,
        current.View(), nextPiece.View(), HoldView(), holdLocked,
        tally, fallDelay, dropTimer, lockTimer,
        input, inGame, flash)
    }

    /** The active, next and held pieces are three different objects. */
    predicate Distinct()
      reads this
    {
      current != nextPiece && holdPiece != current && holdPiece != nextPiece
    }

    ghost predicate Valid()
      reads this, board, current, nextPiece, holdPiece
    {
      Distinct() && Session.ViewOk(View())
    }

    /** `start_game`: `k1` and `k2` are drawn for the active and next pieces, `k3` by the spawn. */
    constructor (now: int, k1: ShapeKey, k2: ShapeKey, k3: ShapeKey)
      ensures Valid() && View() == Session.Start(now, k1, k2, k3)
    {
      board := new Board();
      current := new Tetromino(k1);
      nextPiece := new Tetromino(k2);
      holdPiece, holdLocked := null, false;
      tally := Tally(0, 0, 0, false);
      fallDelay, dropTimer, lockTimer := InitialFallDelay, now, None;
      input := Session.Input(0, 0, 0, false, 0, InitialDownDelay);
      inGame, flash := false, Session.Flash(0, 0, FlashDuration);
      new;
      assert View() == Session.Initial(now, k1, k2);
      SpawnPiece(k3);
      ghost var w := View();
      inGame := true;
      flash := Session.Flash(0, 0, FlashDuration);
      assert View() == w.(inGame := true, flash := Session.Flash(0, 0, FlashDuration));
      Session.StartOk(now, k1, k2, k3);
    }

    /** `game_over`: the game stops; the banner and the two-second wait are not modelled. */
    method GameOver()
      modifies this`inGame
      ensures View() == old(View()).(inGame := false)
    {
      inGame := false;
    }

    /**
     * `spawn_piece`. It runs in the middle of `hold` too, when the held slot and
     * the active piece are the same object, so it asks only that the next piece
     * is a separate one.
     */
    method SpawnPiece(k: ShapeKey)
      requires WellFormed(board.grid) && |nextPiece.matrix| > 0
      requires current != nextPiece && holdPiece != nextPiece
      modifies this`current, this`nextPiece, this`holdLocked, this`inGame, nextPiece
      ensures View() == Session.Spawn(old(View()), k)
      ensures current == old(nextPiece) && fresh(nextPiece)
    {
      ghost var v := View();
      var drawn := new Tetromino(k);
      current, nextPiece := nextPiece, drawn;
      PlaceCurrent();
      holdLocked := false;
      ghost var c := Session.Place(v.next);
      assert View() == v.(current := c, next := Fresh(k), holdLocked := false);
      var ok := board.ValidPosition(current.GetCells(), 0, 0);
      if !ok {
        GameOver();
      }
      assert View() == Session.Spawn(v, k);
    }

    /** Centre the active piece on the top of the board, as `spawn_piece` and `hold` do. */
    method PlaceCurrent()
      requires |current.matrix| > 0
      modifies current`x, current`y, current`rotated
      ensures current.View() == Session.Place(old(current.View()))
    {
      current.x := Cols / 2 - |current.matrix[0]| / 2;
      current.y := -2;
      current.rotated := false;
    }

    /** `hold`: park the active piece, or swap it with the held one, once per spawn. */
    method Hold(k: ShapeKey)
      requires Valid()
      modifies this, current, nextPiece, holdPiece
      ensures Valid() && View() == Session.Hold(old(View()), k)
    {
      ghost var v := View();
      Session.HoldOk(v, k);
      if holdLocked {
        return;
      }
      if holdPiece == null {
        PieceShape(v.next);
        holdPiece := current;
        assert View() == v.(hold := Some(v.current));
        SpawnPiece(k);
        holdLocked := true;
        assert View() == Session.Spawn(v.(hold := Some(v.current)), k).(holdLocked := true);
      } else {
        PieceShape(v.hold.value);
        var c := holdPiece;
        holdPiece, current := current, c;
        PlaceCurrent();
        holdLocked := true;
        assert View() == v.(current := Session.Place(v.hold.value), hold := Some(v.current), holdLocked := true);
      }
    }

    /** The loop of `hard_drop`: move the active piece down while one row down is valid. */
    method Fall()
      requires WellFormed(board.grid) && IsMatrix(current.matrix) && Tight(current.matrix)
      modifies current`y
      ensures current.y == Session.DropY(board.grid, current.matrix, current.x, old(current.y))
    {
      ghost var y0 := current.y;
      var ok := board.ValidPosition(current.GetCells(), 0, 1);
      while ok
        invariant Session.DropY(board.grid, current.matrix, current.x, current.y)
          == Session.DropY(board.grid, current.matrix, current.x, y0)
        invariant ok == Fits(board.grid, current.GetCells(), 0, 1)
        decreases Rows - current.y
      {
        Session.FitsAboveFloor(board.grid, current.matrix, current.x, current.y);
        current.y := current.y + 1;
        ok := board.ValidPosition(current.GetCells(), 0, 1);
      }
    }

    /** The active piece moved down to its drop row, the state `hard_drop` locks. */
    method DropCurrent()
      requires Valid()
      modifies current`y
      ensures Valid() && View() == Session.Dropped(old(View()))
    {
      ghost var v := View();
      PieceShape(v.current);
      Fall();
      assert View() == Session.Dropped(v);
    }

    /** `hard_drop`: drop the piece as far as it goes, then lock it. */
    method HardDrop(now: int, k: ShapeKey)
      requires Valid()
      modifies this, board, current, nextPiece, holdPiece
      ensures Valid() && View() == Session.HardDrop(old(View()), now, k)
    {
      ghost var v := View();
      DropCurrent();
      LockPiece(now, k);
      assert View() == Session.HardDrop(v, now, k);
    }

    /**
     * `lock_piece`: the board writes the piece; on game over the game stops,
     * otherwise the clear is scored and the next piece spawned.
     */
    method LockPiece(now: int, k: ShapeKey)
      requires Valid()
      modifies this, board, nextPiece
      ensures Valid() && View() == Session.Lock(old(View()), now, k)
    {
      ghost var v := View();
      var cells := current.GetCells();
      Session.LockStep(v);
      var cleared := board.LockPiece(cells);
      ghost var g := board.grid;
      if cleared == -1 {
        GameOver();
      } else {
        ghost var u := v.(grid := g, boardScore := v.boardScore + cleared * 100);
        assert View() == u;
        assert Session.Lock(v, now, k) == Session.Score(u, cleared, now, k);
        ScoreClear(cleared, now, k);
      }
      Session.LockOk(v, now, k);
    }

    /** The end of `lock_piece` after a lock without game over: the T-spin test, `update_score` and `spawn_piece`. */
    method ScoreClear(cleared: int, now: int, k: ShapeKey)
      requires WellFormed(board.grid) && 0 <= cleared <= 4 && |nextPiece.matrix| > 0
      requires current != nextPiece && holdPiece != nextPiece
      modifies this`tally, this`flash
      modifies this`current, this`nextPiece, this`holdLocked, this`inGame, nextPiece
      ensures View() == Session.Score(old(View()), cleared, now, k)
      ensures current == old(nextPiece) && fresh(nextPiece)
    {
      ghost var v := View();
      var tspin := TSpinTest(NameAttribute, current.rotated, cleared);
      UpdateScore(cleared, tspin, now);
      SpawnPiece(k);
      assert View() == Session.Score(v, cleared, now, k);
    }

    /** `update_score(cleared, is_tspin)`, for the 0..4 lines a lock can clear. */
    method UpdateScore(cleared: int, tspin: bool, now: int)
      requires 0 <= cleared <= 4
      modifies this`tally, this`flash
      ensures View() == Session.UpdateScore(old(View()), cleared, tspin, now)
    {
      if cleared == 0 {
        tally := tally.(b2b := false);
        return;
      }
      var points, difficult := ClearPoints(cleared, tspin);
      var t := tally.(score := tally.score + points, b2b := difficult, lines := tally.lines + cleared);
      if t.lines / 10 > t.level {
        t := t.(level := t.level + 1);
      }
      tally := t;
      flash := flash.(points := points, start := now);
    }

    /**
     * The points of `update_score` for a clear of 1..4 lines, with the
     * back-to-back bonus, and whether the clear was a difficult one.
     */
    method ClearPoints(cleared: int, tspin: bool) returns (points: int, difficult: bool)
      requires 1 <= cleared <= 4
      ensures (Award(tally, cleared, tspin).1, Award(tally, cleared, tspin).0.b2b) == (points, difficult)
    {
      var levelMul := tally.level + 1;
      difficult := false;
      if tspin && cleared == 2 {
        points, difficult := 12 * levelMul, true;
      } else if tspin && cleared == 3 {
        points, difficult := 36 * levelMul, true;
      } else if cleared == 4 {
        points, difficult := 8 * levelMul, true;
      } else {
        points := (if cleared == 1 then 1 else if cleared == 2 then 3 else 5) * levelMul;
      }
      if difficult && tally.b2b {
        points := points * 3 / 2;
      }
    }

    /** `rotate(dir)`. */
    method Rotate(direction: int)
      requires Valid()
      modifies this`lockTimer, current
      ensures Valid() && View() == Session.Rotate(old(View()), direction)
    {
      ghost var v := View();
      var ok := current.Rotate(direction, board);
      if ok {
        lockTimer := None;
        current.rotated := true;
      }
      assert View() == Session.Rotate(v, direction);
      Session.RotateOk(v, direction);
    }

    /** `move(dx)`. */
    method Move(dx: int)
      requires Valid()
      modifies this`lockTimer, current`x
      ensures Valid() && View() == Session.Move(old(View()), dx)
    {
      ghost var v := View();
      var ok := board.ValidPosition(current.GetCells(), dx, 0);
      if ok {
        current.x := current.x + dx;
        lockTimer := None;
      }
      assert View() == Session.Move(v, dx);
      Session.MoveOk(v, dx);
    }

    /** `soft_drop`. */
    method SoftDrop(now: int, k: ShapeKey)
      requires Valid()
      modifies this, board, current, nextPiece, holdPiece
      ensures Valid() && View() == Session.SoftDrop(old(View()), now, k)
    {
      ghost var v := View();
      var ok := board.ValidPosition(current.GetCells(), 0, 1);
      if ok {
        current.y := current.y + 1;
        lockTimer := None;
      } else {
        Blocked(now, k);
      }
      Session.SoftDropOk(v, now, k);
    }

    /** The blocked branch of `soft_drop`: arm the lock timer, or lock once it has run for the lock delay. */
    method Blocked(now: int, k: ShapeKey)
      requires Valid()
      modifies this, board, nextPiece
      ensures Valid() && View() == Session.Blocked(old(View()), now, k)
    {
      ghost var v := View();
      if lockTimer.None? {
        lockTimer := Some(now);
      } else if now - lockTimer.value >= LockDelay {
        LockPiece(now, k);
      }
      Session.BlockedOk(v, now, k);
    }

    /**
     * The left and right keys: set `move_dir`, move once, start both auto-shift
     * timers. The timers are set before the move here; the move does not read them.
     */
    method Press(dir: int, now: int)
      requires Valid()
      modifies this`lockTimer, this`input, current`x
      ensures Valid() && View() == Session.Press(old(View()), dir, now)
    {
      input := input.(moveDir := dir, dasTimer := now, arrTimer := now);
      Move(dir);
    }

    /** One key-down event of the event loop. */
    method KeyDown(key: Session.Key, now: int, k: ShapeKey)
      requires Valid()
      modifies this, board, current, nextPiece, holdPiece
      ensures Valid() && View() == Session.KeyDown(old(View()), key, now, k)
    {
      ghost var v := View();
      match key {
        case LeftKey =>
          Press(-1, now);
        case RightKey =>
          Press(1, now);
        case DownKey =>
          input := input.(downPressed := true, downStart := now, downDelay := InitialDownDelay);
        case RotateKey =>
          Rotate(1);
        case HardDropKey =>
          HardDrop(now, k);
        case HoldKey =>
          Hold(k);
        case EscapeKey =>
          inGame := false;
        case OtherKey =>
      }
      assert View() == Session.KeyDown(v, key, now, k);
      Session.KeyDownOk(v, key, now, k);
    }

    /** One key-up event of the event loop. */
    method KeyUp(key: Session.Key)
      requires Valid()
      modifies this`input
      ensures Valid() && View() == Session.KeyUp(old(View()), key)
    {
      if key == Session.LeftKey || key == Session.RightKey {
        input := input.(moveDir := 0);
      }
      if key == Session.DownKey {
        input := input.(downPressed := false);
      }
    }

    /** The auto-shift step of the main loop. */
    method AutoShift(now: int)
      requires Valid()
      modifies this`lockTimer, this`input, current`x
      ensures Valid() && View() == Session.AutoShift(old(View()), now)
    {
      ghost var v := View();
      Session.AutoShiftFacts(v, now);
      if input.moveDir != 0 {
        if now - input.dasTimer >= DasDelay && now - input.arrTimer >= ArrSpeed {
          Move(input.moveDir);
          ghost var w := View();
          input := input.(arrTimer := now);
          assert View() == w.(input := v.input.(arrTimer := now));
        }
      }
    }

    /**
     * The delays of the gravity step: the fall delay, and the down-key delay
     * while the key is held; `delay` is the one that applies.
     */
    method UpdateDelays(now: int, scaled: int) returns (delay: int)
      requires Valid()
      modifies this`fallDelay, this`input
      ensures Valid() && View() == Session.Delays(old(View()), now, scaled)
      ensures delay == if input.downPressed then input.downDelay else fallDelay
    {
      Session.DelaysOk(View(), now, scaled);
      fallDelay := FallDelay(scaled);
      delay := fallDelay;
      if input.downPressed {
        var held := now - input.downStart;
        input := input.(downDelay := DownDelay(held));
        delay := input.downDelay;
      }
    }

    /** The gravity step of the main loop. */
    method Gravity(now: int, scaled: int, k: ShapeKey)
      requires Valid()
      modifies this, board, current, nextPiece, holdPiece
      ensures Valid() && View() == Session.Gravity(old(View()), now, scaled, k)
    {
      ghost var v := View();
      var delay := UpdateDelays(now, scaled);
      ghost var w := View();
      if now - dropTimer > delay {
        SoftDrop(now, k);
        dropTimer := now;
        assert View() == Session.SoftDrop(w, now, k).(dropTimer := now);
      }
      Session.GravityFacts(v, now, scaled, k);
      Session.GravityOk(v, now, scaled, k);
    }
  }
}
