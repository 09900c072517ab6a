# Tetris rules engine

A Dafny model of the rules engine of a small pygame Tetris clone, with proofs
of what its rules promise. The model covers three parts.

- **The playfield** (board.py), module `Playfield`. It is a 20 x 10 grid of
  colour codes in which 0 means empty. The `Board` class holds the collision
  test `valid_position` and `lock_piece`, which writes a piece into the grid
  and reports game over with -1. It also holds `clear_lines`, which drops the
  full rows and refills the top with empty rows.
- **Pieces** (tetromino.py), modules `Geometry` and `Pieces`.
  - The seven shape matrices, and the clockwise and counter-clockwise
    rotations built from transpose and reverse.
  - The row-major enumeration of a piece's occupied cells (`get_cells`).
  - The two wall-kick tables, and the `Tetromino` class whose `rotate` turns
    the matrix and then tries the kicks of the `(old_r, new_r)` transition in
    table order. The first valid kick is committed; if none is valid, the
    turn is undone.
- **The game session** (game.py), modules `Scoring`, `Session` and `Game`.
  - The state `TetrisGame` keeps for one game: the board, the active, next
    and held pieces, the hold-once flag, the timers, score, lines, level and
    back-to-back flag.
  - The operations spawn, hold, move, rotate, soft drop with its 500 ms lock
    delay, hard drop, lock and scoring.
  - The key handlers, and the per-frame auto-shift (DAS 200 ms, repeat 40 ms)
    and gravity rules with the accelerating down-key delay.

The classes `Board`, `Tetromino` and `TetrisGame` update their fields in
place, as the source does. Each of their methods is proved to end in the state
a pure function describes. `Tetromino.Rotate` follows `Pieces.RotatePiece` on
the value `Piece`. `TetrisGame`'s methods follow the functions of `Session` on
the value `GameView`. The lemmas about those functions state what the rules
promise. Every method of `TetrisGame` also keeps the game invariant
`Session.ViewOk`:
- a well-formed grid with no full row;
- pieces that are turns of their spawn shapes;
- an active piece between the walls and above the floor;
- `level == lines / 10`.

Time, which the source reads from `pygame.time.get_ticks()`, is the parameter
`now`. The shape the random draw would pick is the parameter `k`.

The model pins down several behaviours of the code as written:
- **Partial writes cannot happen in play.** `lock_piece` stops at the first
  cell above the board after writing the earlier ones. Cells come out top row
  first and every matrix row has an occupied entry, so during a game either
  every cell is on the board or the very first one is above it
  (`Session.LockAllOrNothing`). The partial-write path of `Board.LockPiece` is
  still modelled (`Playfield.LockFacts`).
- **The spawn game-over cannot fire.** A spawned piece occupies at most two
  rows, both above the board, so it always fits (`Session.SpawnAlwaysFits`).
  Game over comes only from locking a piece that is still partly above the
  board.
- **The T-spin test never succeeds.** `Tetromino` has no `name` attribute, so
  the test always sees "" (`Scoring.TSpinNever`). Every lock is therefore
  scored as a non-T-spin (`Session.SettleNoTSpin`).
- **"O" is not special-cased.** It rotates with the JLSTZ kicks, but its
  matrix never changes (`Pieces.RotateOKeepsMatrix`).
- **Hold keeps the swapped-in piece's matrix and rotation state.** It resets
  only its position and `rotated` flag (`Session.HoldSwap`).
- **Hold does not reset `lock_timer`.** The swap leaves it as it was
  (game.py:97-106, `Session.HoldSwap`).

## Model

| member | source | states |
|---|---|---|
| Geometry.Shape | tetromino.py:6-34 | every shape is a non-empty rectangular matrix |
| Geometry.ShapeTight | tetromino.py:6-34 | no shape has an empty border row or column; each has at most 2 rows and at most 4 columns |
| Geometry.ShapeCells | tetromino.py:6-34 | every shape has exactly four occupied entries, all equal to its colour code (I=1 ... Z=7) |
| Geometry.CellsOfI | tetromino.py:7-9 | the I shape's cells are the four cells of its single row, colour 1 |
| Geometry.CellsOfJ | tetromino.py:10-13 | the J shape's cells, in row-major order, colour 2 |
| Geometry.CellsOfL | tetromino.py:14-17 | the L shape's cells, in row-major order, colour 3 |
| Geometry.CellsOfO | tetromino.py:18-21 | the O shape's cells, in row-major order, colour 4 |
| Geometry.CellsOfS | tetromino.py:22-25 | the S shape's cells, in row-major order, colour 5 |
| Geometry.CellsOfT | tetromino.py:26-29 | the T shape's cells, in row-major order, colour 6 |
| Geometry.CellsOfZ | tetromino.py:30-33 | the Z shape's cells, in row-major order, colour 7 |
| Geometry.RotCW | tetromino.py:98-99 | the clockwise turn is rectangular, with its row and column counts swapped |
| Geometry.RotCWAt | tetromino.py:98-99 | entry (i, j) of the clockwise turn is entry (h-1-j, i) of the original |
| Geometry.RotCCW | tetromino.py:101-102 | the counter-clockwise turn is rectangular, with its row and column counts swapped |
| Geometry.RotCCWAt | tetromino.py:101-102 | entry (i, j) of the counter-clockwise turn is entry (j, w-1-i) of the original |
| Geometry.RotationsInverse | tetromino.py:98-102 | `_rot_ccw` undoes `_rot_cw`, and `_rot_cw` undoes `_rot_ccw` |
| Geometry.HalfTurn | tetromino.py:98-99 | two clockwise turns are the point reflection of the matrix |
| Geometry.FourTurns | tetromino.py:98-99 | four clockwise turns restore the matrix |
| Geometry.RotCWTight | tetromino.py:98-99 | a turn keeps a matrix free of empty border rows and columns |
| Geometry.OrientCW | tetromino.py:98-99 | turning a shape in rotation state r clockwise gives its orientation for state (r + 1) mod 4 |
| Geometry.OrientCCW | tetromino.py:101-102 | turning a shape in rotation state r counter-clockwise gives its orientation for state (r + 3) mod 4 |
| Geometry.OTurnsInPlace | tetromino.py:98-102 | both turns leave the O matrix unchanged, so every orientation of O is the spawn matrix |
| Geometry.PieceShape | tetromino.py:91-102 | a piece in one of its four orientations has a rectangular matrix with 1 to 4 rows and columns and no empty border |
| Geometry.CellsRowMajor | tetromino.py:139-143 | `get_cells` yields (x+col, y+row, val) for exactly the nonzero entries, in strictly row-major order |
| Geometry.TopCell | tetromino.py:139-143 | a matrix without an empty border yields at least one cell, the first one is in its top row, and all lie in the bounding box |
| Geometry.CellsShift | tetromino.py:139-143 | the cells of a piece moved by (dx, dy) are its cells translated by (dx, dy) |
| Geometry.Cells | tetromino.py:139-143 | computes `get_cells`: (x+col, y+row, val) for each nonzero entry, row by row |
| Geometry.NegatedTwice | tetromino.py:68-89 | negating a kick list twice gives the list back |
| Geometry.JlstzKicksWellFormed | tetromino.py:68-77 | the JLSTZ table covers exactly the 8 transitions (a, a±1 mod 4); each list has 5 kicks starting with (0, 0); the list for (b, a) is the negation of the one for (a, b) |
| Geometry.IKicksWellFormed | tetromino.py:80-89 | the same three facts for the I table |
| Geometry.TransitionCovered | tetromino.py:114-115 | (r, (r + ROT_DIR[d]) mod 4) is one of the 8 transitions for every state r and direction ±1 |
| Geometry.KickList | tetromino.py:123-124 | the kick lookup of `rotate` is defined for every shape, state and direction, and gives 5 kicks starting with (0, 0) |
| Playfield.EmptyRow | board.py:8 | an empty row is 10 zeros |
| Playfield.EmptyRows | board.py:53-54 | n empty rows |
| Playfield.FitsEmpty | board.py:12-28 | on an empty grid a position is valid exactly when every translated cell is between the walls and above the floor |
| Playfield.Fits | board.py:12-28 | computes `valid_position`: every translated cell has a column in [0, 10), a row below 20, and an empty grid entry when its row is >= 0 |
| Playfield.FirstAbove | board.py:35-37 | the index of the first cell above the board: every earlier cell has row >= 0 |
| Playfield.Put | board.py:38 | writing one cell keeps the grid 20 x 10 |
| Playfield.WriteCells | board.py:35-38 | writing cells keeps the grid 20 x 10 |
| Playfield.WriteCellsAt | board.py:35-38 | after the writes each cell's position holds its value, and every other position is unchanged |
| Playfield.WriteCellsOutside | board.py:35-38 | a row no cell lies in is unchanged by the writes |
| Playfield.NonFullFacts | board.py:51 | the kept rows are exactly the non-full rows: no full row is kept, every non-full row is kept, and kept plus cleared is 20 |
| Playfield.FullCountRows | board.py:51-52 | the cleared count equals the number of full rows |
| Playfield.NoFullIdentity | board.py:51-52 | without a full row the filter keeps the grid as it is and clears 0 |
| Playfield.FullCountWindow | board.py:51-52 | if every full row lies within h consecutive rows, at most h rows are cleared |
| Playfield.Compact | board.py:50-56 | computes the grid `clear_lines` leaves: one empty row per full row on top of the non-full rows in order |
| Playfield.CompactFacts | board.py:50-56 | after clearing: 20 rows of 10; the top `cleared` rows are empty; the rest are the old non-full rows in their order; no row is full |
| Playfield.CompactNoFull | board.py:50-56 | clearing a grid with no full row clears 0 and leaves it unchanged |
| Playfield.CompactIdempotent | board.py:50-56 | clearing twice is clearing once; the second clear removes nothing |
| Playfield.LockOutcome | board.py:32-42 | computes `lock_piece`: writes the cells up to the first one above the board; -1 and the partly written grid if there is one, else the full-row count and the compacted grid |
| Playfield.LockFacts | board.py:32-42 | -1 exactly when some cell is above the board. Then only the cells before the first such one are written and nothing is cleared. Otherwise every cell is written and the result is the number of full rows, with the grid compacted |
| Playfield.LockClearBound | board.py:32-42 | if no row was full before, a piece spanning h rows clears at most h rows |
| Playfield.Board.constructor | board.py:7-9 | a new board is the empty 20 x 10 grid with score 0 |
| Playfield.Board.ValidPosition | board.py:12-28 | true exactly when every translated cell has a column in [0, 10) and a row below 20, and sits on an empty entry when its row is >= 0; cells above the board never read the grid; board and piece are unchanged |
| Playfield.Board.LockPiece | board.py:32-42 | grid and result are those of `LockOutcome`; the board score gains `cleared * 100`, and is unchanged on -1 |
| Playfield.Board.ClearLines | board.py:50-56 | returns the number of full rows and leaves the compacted grid; the score is unchanged |
| Pieces.FirstKick | tetromino.py:124-129 | the index of the first kick that gives a valid position, every earlier kick being invalid; `None` exactly when no kick is valid |
| Pieces.FirstKickIs | tetromino.py:124-129 | a valid kick with all earlier kicks invalid is the one chosen |
| Pieces.FirstKickNone | tetromino.py:124-136 | when no kick is valid, none is chosen |
| Pieces.Kicks | tetromino.py:123-124 | the kick list of a transition has 5 entries and starts with (0, 0) |
| Pieces.OrientTurn | tetromino.py:98-115 | turning a shape in state r by a direction gives its orientation for the new state |
| Pieces.TryKicks | tetromino.py:117-136 | computes the kick loop: turn the matrix, commit the first kick that gives a valid position with the new state, or return the piece unchanged with false |
| Pieces.TryKicksShape | tetromino.py:114-136 | on failure the piece is unchanged; on success the matrix is turned and r advanced; the shape and `rotated` are kept |
| Pieces.TryKicksKeepsPiece | tetromino.py:114-136 | rotation keeps the piece in one of its four orientations, with its shape and `rotated` flag |
| Pieces.TurnedOk | tetromino.py:114-129 | the turned matrix with the advanced state is again an orientation of the shape |
| Pieces.TryKicksFacts | tetromino.py:114-136 | success exactly when some kick is valid for the turned matrix. Then the first valid kick moves the piece, all earlier ones are invalid, and r becomes (r + direction) mod 4 |
| Pieces.TryKicksAt | tetromino.py:124-129 | given the first valid kick, the rotated piece is the turned matrix moved by that kick |
| Pieces.TryKicksNone | tetromino.py:131-136 | with no valid kick the rotation fails and the piece is unchanged |
| Pieces.RotatePiece | tetromino.py:105-136 | computes `rotate`: false for a direction other than ±1, else the kick loop with the table of the piece's shape |
| Pieces.RotateKeepsPiece | tetromino.py:105-136 | a direction other than ±1 fails and changes nothing; a failed rotation changes nothing; the result is an orientation of the same shape |
| Pieces.RotateKicks | tetromino.py:114-129 | with the table of the piece's shape: success exactly when some kick is valid. The first valid kick is committed, earlier ones are invalid, and the matrix and r are the turned ones |
| Pieces.RotateOKeepsMatrix | tetromino.py:118-124 | "O" rotates with the JLSTZ kicks, yet its matrix is always the spawn matrix afterwards |
| Pieces.Tetromino.constructor | tetromino.py:91-95 | a new piece has the shape's matrix, origin (0, 0) and state 0 |
| Pieces.Tetromino.RotCw | tetromino.py:98-99 | `_rot_cw` replaces the matrix by its clockwise turn |
| Pieces.Tetromino.RotCcw | tetromino.py:101-102 | `_rot_ccw` replaces the matrix by its counter-clockwise turn |
| Pieces.Tetromino.TryKicksOn | tetromino.py:117-136 | turn, try the kicks in order, commit the first valid one or undo the turn: the outcome is `TryKicks` |
| Pieces.Tetromino.Rotate | tetromino.py:105-136 | `rotate` ends in the piece and result `RotatePiece` gives, and keeps the piece an orientation of its shape |
| Scoring.TSpinNever | game.py:124-128 | the T-spin test is false for every piece and clear, since `getattr` always returns "" |
| Scoring.Award | game.py:134-166 | computes the score update: points from the clear table times (level+1), x1.5 for back-to-back difficult clears, lines, level and b2b |
| Scoring.AwardTable | game.py:134-166 | clearing nothing earns 0 and only resets b2b. Otherwise points are 1/3/5/8 (single/double/triple/Tetris) or 12/36 (T-spin double/triple) times (level+1). A difficult clear after a difficult one gets x1.5, floored. b2b becomes "difficult". Score and lines grow by the points and the cleared count |
| Scoring.AwardLevel | game.py:158-166 | score and lines never decrease; the level rises by at most 1; `level <= lines // 10` is kept, and so is equality |
| Scoring.BackToBackTetris | game.py:149-161 | at level 0 a Tetris earns 8 and an immediately following Tetris earns 12 |
| Scoring.DownDelay | game.py:244 | computes the down-key delay: 120 less 10 per full 200 ms held, at least 20 |
| Scoring.DownDelayBounds | game.py:244 | the down-key delay lies in [20, 120], and is 20 exactly once the key has been held 2000 ms |
| Scoring.DownDelayMonotone | game.py:244 | the down-key delay never grows as the key is held longer |
| Scoring.BaseDelay | game.py:239 | computes the base gravity delay from the difficulty setting |
| Scoring.BaseDelayValues | game.py:239 | Easy 1500, Normal 800, Hard 200, and 1500 for any other setting |
| Scoring.FallDelay | game.py:240 | the gravity delay is at least 50 and equals the scaled base delay or 50 |
| Session.InsideCells | board.py:17-23 | a piece's bounding box lies between the walls and above the floor exactly when all its cells do |
| Session.PlaceInWalls | game.py:89-90 | a piece placed at x = 10//2 - width//2, y = -2 is between the walls, and all its cells are in rows less than 2 |
| Session.Spawn | game.py:87-94 | computes `spawn_piece`: the next piece becomes active at the top centre, a new next is drawn, hold is unlocked, and the game ends if the position is invalid |
| Session.SpawnAlwaysFits | game.py:93-94 | in every reachable state the spawn position is valid, so spawning never ends the game |
| Session.SpawnFacts | game.py:87-94 | the former next piece becomes active at x = 5 - width//2, y = -2 with `rotated` clear. A new next piece is drawn and `hold_locked` is cleared; nothing else changes and the invariant is kept |
| Session.SpawnOk | game.py:87-94 | spawning keeps the game invariant and `in_game` |
| Session.EmptyGridOk | board.py:7-8 | the empty grid is 20 x 10 with no full row |
| Session.Start | game.py:55-82 | computes `start_game`: an empty board and hold, zeroed counters, the timers of a new game, one spawn, then the game running with the flash reset |
| Session.StartFacts | game.py:55-82 | a new game: empty grid, zero counters, empty hold, no lock timer, drop timer at `now`, the second draw active and the third next, `in_game` set. The first draw, overwritten by the spawn, plays no part |
| Session.StartOk | game.py:55-82 | a new game satisfies the game invariant |
| Session.Hold | game.py:97-106 | computes `hold`: nothing when locked; else hold the active piece and spawn, or swap with the held piece and place it at the top; then lock hold |
| Session.HoldOnce | game.py:97-106 | hold always leaves `hold_locked` set, is a no-op when it is set, and two holds in a row act as one |
| Session.HoldSwap | game.py:97-106 | the swapped-in piece keeps its matrix and r; the next piece and `lock_timer` are untouched. Holding again once unlocked gives back the formerly active piece at the top, and after a swap also the held one, restoring the rest of the state; after an empty-slot hold the spawned piece goes to the slot |
| Session.HoldOk | game.py:97-106 | hold keeps the game invariant and `in_game` |
| Session.Move | game.py:178-181 | computes `move`: shift by dx and clear `lock_timer` if that position is valid, else nothing |
| Session.FitsMoved | game.py:179-180 | a piece moved by an offset that was valid is at a valid position between the walls |
| Session.ShiftOk | game.py:178-187 | a valid shift that clears the lock timer keeps the game invariant |
| Session.MoveUndo | game.py:178-181 | from a valid position, a valid move by dx followed by a move by -dx restores the piece; only `lock_timer` is left cleared |
| Session.MoveOk | game.py:178-181 | move keeps the game invariant and `in_game` |
| Session.Rotate | game.py:173-176 | computes `rotate`: on success take the rotated piece, mark it `rotated` and clear `lock_timer` |
| Session.TryKicksFits | tetromino.py:124-129 | a successful rotation leaves the piece at a valid position |
| Session.RotateFits | tetromino.py:105-129 | the same for `rotate` with the shape's table |
| Session.RotateFacts | game.py:173-176 | a failed rotation, and any direction other than ±1, changes nothing. A successful one leaves a piece of the same shape in state (r + direction) mod 4 at a valid position, marked `rotated`, with `lock_timer` cleared, and changes nothing else |
| Session.RotateOk | game.py:173-176 | rotate keeps the game invariant and `in_game` |
| Session.FitsInWalls | board.py:17-23 | every cell of a valid position is between the walls and above the floor |
| Session.UpdateScore | game.py:134-170 | computes `update_score`: the counters `Award` gives, and the flash time on a clear |
| Session.UpdateScoreFacts | game.py:134-170 | no clear only resets b2b. Otherwise score never drops, lines grow by the count, the level rises by at most 1 and stays `lines // 10`; only the counters and the flash change |
| Session.UpdateScoreOk | game.py:134-170 | scoring keeps the game invariant and `in_game` |
| Session.InWallsPrefix | board.py:35-38 | the cells written before the first one above the board all lie on the board |
| Session.SoundInWalls | board.py:35-38 | the active piece's cells written by a lock lie on the board |
| Session.LockBound | board.py:32-42 | locking the active piece clears at most 4 rows |
| Session.Lock | game.py:115-131 | computes `lock_piece`: game over with the partly written grid on -1, else the board score grows, the clear is scored (T-spin test included) and the next piece spawns |
| Session.LockStep | board.py:32-42 | locking the active piece is defined and returns -1 or a count in 0..4 |
| Session.LockAllOrNothing | board.py:35-37 | for a piece in play the first cell above the board, if any, is the first cell enumerated, so a lock writes all cells or none |
| Session.LockGameOver | game.py:115-118 | locking a piece still partly above the board leaves the grid unchanged and ends the game |
| Session.LandsOnBoard | board.py:35-38 | a piece with y >= 0 in play lies wholly on the board |
| Session.LockOutcomeLands | board.py:32-42 | locking a piece on the board clears the full rows of the written grid (at most 4) and leaves no full row |
| Session.LockSettles | game.py:115-131 | a lock on the board is scored and followed by a spawn |
| Session.SettleNoTSpin | game.py:124-131 | the score update after a lock always uses "no T-spin" |
| Session.SettleOk | game.py:116-131 | scoring and spawning after a lock keep the invariant and `in_game` |
| Session.LockLandsOk | game.py:115-131 | locking a piece on the board keeps the invariant and the game running |
| Session.LockOk | game.py:115-131 | locking keeps the game invariant and never restarts a finished game |
| Session.FitsAboveFloor | game.py:110-111 | a piece that can move one row down is above the floor, so the hard-drop loop ends |
| Session.DropY | game.py:110-111 | the landing row is at or below the starting row |
| Session.DropStops | game.py:110-111 | at the landing row one more row down is invalid |
| Session.DropPasses | game.py:110-111 | every row the loop passes allows one more step down |
| Session.DropFacts | game.py:110-111 | the landing row is the first row from which one step down is invalid |
| Session.DropInside | game.py:110-111 | the dropped piece stays between the walls and above the floor |
| Session.Dropped | game.py:110-111 | dropping keeps the part of the invariant the rules rely on |
| Session.DropEmpty | game.py:110-111 | on an empty board a piece that fits drops until its bottom row is row 19 |
| Session.HardDropO | game.py:109-112 | O spawned on an empty board is placed at x = 4, y = -2 and lands in rows 18-19, columns 4-5; locking it there clears nothing, rows 18 and 19 become [0,0,0,0,4,4,0,0,0,0] and every other row stays empty |
| Session.OBottomRow | board.py:35-38 | writing the O at rows 18-19, columns 4-5 into the empty grid fills exactly columns 4-5 of those rows |
| Session.LockO | board.py:32-42 | locking that O on the empty grid returns 0 and leaves those two rows filled and all others empty |
| Session.HardDrop | game.py:109-112 | computes `hard_drop`: lock the piece at its drop row |
| Session.HardDropFacts | game.py:109-112 | hard drop moves the piece straight down to where one more row is invalid, then locks |
| Session.HardDropOk | game.py:109-112 | hard drop keeps the game invariant and never restarts a finished game |
| Session.SoftDrop | game.py:184-193 | computes `soft_drop`: one row down with `lock_timer` cleared if valid, else the blocked branch |
| Session.Blocked | game.py:188-193 | computes the blocked branch: arm `lock_timer` with `now` when unset, lock once it has run 500 ms, else nothing |
| Session.SoftDropStep | game.py:184-187 | a free piece moves down one row and stays sound, and a hard drop from there lands where it would have from the start |
| Session.SoftDropLocks | game.py:188-193 | a blocked piece whose lock timer has run 500 ms locks where it is, exactly as a hard drop would |
| Session.SoftDropOk | game.py:184-193 | soft drop keeps the game invariant and never restarts a finished game |
| Session.BlockedOk | game.py:188-193 | the blocked branch of soft drop keeps the game invariant |
| Session.LockDelayHolds | game.py:188-193 | a blocked piece is armed at t1, and a second soft drop less than 500 ms later changes nothing |
| Session.AutoShift | game.py:231-235 | computes the DAS/ARR step: with a direction held, 200 ms since the press and 40 ms since the last repeat, move and set `arr_timer` to `now` |
| Session.AutoShiftFacts | game.py:231-235 | auto-shift acts only with a direction held, 200 ms since the press and 40 ms since the last repeat, and then sets `arr_timer` to `now`; otherwise nothing changes |
| Session.DelaysOk | game.py:238-245 | recomputing the fall and down-key delays keeps the game invariant |
| Session.Gravity | game.py:238-247 | computes the gravity step: record the delays, and soft-drop and restart `drop_timer` once strictly more than the delay in force has passed |
| Session.GravityFacts | game.py:238-247 | the fall delay is >= 50 and the down-key delay lies in [20, 120]. Gravity soft-drops and resets `drop_timer` only when strictly more than the delay has passed |
| Session.GravityOk | game.py:238-247 | a gravity step keeps the game invariant and never restarts a finished game |
| Session.Press | game.py:205-208 | computes a left or right press: remember the direction, start both auto-shift timers at `now`, move once |
| Session.PressOk | game.py:205-208 | a left or right press keeps the game invariant and `in_game` |
| Session.KeyUp | game.py:224-228 | computes a release: left or right sets `move_dir` to 0, down clears `down_pressed`, other keys change nothing |
| Session.KeyUpFacts | game.py:224-235 | after releasing left or right no auto-shift step moves the piece; after releasing down the delay recorded is only the fall delay; a release keeps the invariant, the board and the pieces |
| Session.KeyDown | game.py:204-221 | computes a key press: left/right press, down starts the fast drop at 120 ms, rotate clockwise, hard drop, hold, escape ends the game |
| Session.KeyDownOk | game.py:204-221 | every key keeps the invariant; only escape and hard drop can end the game |
| Game.TetrisGame.constructor | game.py:55-82 | `start_game` ends in `Session.Start`, which satisfies the invariant |
| Game.TetrisGame.GameOver | game.py:328-334 | only `in_game` changes, to false |
| Game.TetrisGame.SpawnPiece | game.py:87-94 | the state becomes `Session.Spawn`; the former next object becomes active and a fresh next object is created |
| Game.TetrisGame.PlaceCurrent | game.py:103-105 | the active piece is placed at the top centre with `rotated` clear |
| Game.TetrisGame.Hold | game.py:97-106 | `hold` ends in `Session.Hold` and keeps the invariant |
| Game.TetrisGame.Fall | game.py:110-111 | the loop moves the piece down to `Session.DropY`, the first row from which one more step is invalid |
| Game.TetrisGame.DropCurrent | game.py:110-111 | the state becomes `Session.Dropped`, keeping the invariant |
| Game.TetrisGame.HardDrop | game.py:109-112 | `hard_drop` ends in `Session.HardDrop` and keeps the invariant |
| Game.TetrisGame.LockPiece | game.py:115-131 | `lock_piece` ends in `Session.Lock` (game over on -1, else score and spawn) and keeps the invariant |
| Game.TetrisGame.ScoreClear | game.py:124-131 | the score update and spawn after a lock end in `Session.Score` |
| Game.TetrisGame.UpdateScore | game.py:134-170 | `update_score` ends in `Session.UpdateScore` |
| Game.TetrisGame.ClearPoints | game.py:139-161 | the points and difficulty computed step by step are those of the points table `Award` |
| Game.TetrisGame.Rotate | game.py:173-176 | `rotate` ends in `Session.Rotate` and keeps the invariant |
| Game.TetrisGame.Move | game.py:178-181 | `move` ends in `Session.Move` and keeps the invariant |
| Game.TetrisGame.SoftDrop | game.py:184-193 | `soft_drop` ends in `Session.SoftDrop` and keeps the invariant |
| Game.TetrisGame.Blocked | game.py:188-193 | the blocked branch arms the lock timer or locks, as `Session.Blocked` |
| Game.TetrisGame.Press | game.py:205-208 | a left or right press ends in `Session.Press` and keeps the invariant |
| Game.TetrisGame.KeyDown | game.py:204-221 | a key press ends in `Session.KeyDown` and keeps the invariant |
| Game.TetrisGame.KeyUp | game.py:224-228 | a key release ends in `Session.KeyUp` and keeps the invariant |
| Game.TetrisGame.AutoShift | game.py:231-235 | the auto-shift step ends in `Session.AutoShift` and keeps the invariant |
| Game.TetrisGame.UpdateDelays | game.py:238-245 | the recomputed delays are those of `Session.Delays`; the delay in force is the down-key delay while down is held, else the fall delay |
| Game.TetrisGame.Gravity | game.py:238-247 | the gravity step ends in `Session.Gravity` and keeps the invariant |

## Left out

- ui.py (menus, settings, key rebinding, music and sound toggles) is not part of this model.
- Rendering, audio and window handling are not modelled. This covers `render`, `draw_side_panels`, `draw_preview`, `Board.draw`, sprite loading, `play_music` and the sound effects. `game_over` is modelled only as `in_game := false`; its drawing and 2-second wait are left out.
- Event polling, `clock.tick` and the frame loop itself are not modelled. Events are the `Key` intents, passed to `KeyDown`/`KeyUp` one at a time. Auto-shift and gravity are separate steps.
- Game.TetrisGame.KeyDown: the escape key sets `in_game` false like the source. The source's `break` also skips the rest of that frame's events, which a one-event-at-a-time model does not capture.
- Scoring.FallDelay: the float `int(base_delay * 0.85 ** level)` is not computed. It is the parameter `scaled`, and only `max(50, scaled)` is modelled.
- The difficulty setting is the argument of `Scoring.BaseDelay`, not a global.
- Randomness (`random_tetromino`) is not modelled. The drawn shape is the parameter `k`.
- Time (`pygame.time.get_ticks()`) is not modelled. It is the parameter `now`.
- The expiry of the points flash (game.py:292-303) is not modelled. It lives in the drawing code. `update_score`'s setting of the flash points and start time is modelled.
- The unreachable lines after `return` in board.py:44-48 are not modelled.
- settings.py is not part of this model. The board size (10 x 20) and the timing constants are inlined as constants.
- Pieces.Tetromino.GetCells: it is a function returning `Geometry.Cells` of the piece's matrix and origin, with no contract of its own. Its properties are the lemmas `Geometry.CellsRowMajor` and `Geometry.TopCell`. Being a function, it cannot change the piece, so repeated calls agree.
- Game.TetrisGame.Press: the source moves first and then sets `das_timer` and `arr_timer`. The model sets the timers first. `move` does not read them, so the end state is the same.
- The counters `score`, `lines`, `level` and `b2b` are kept together in one `Tally` record. The input timers and the flash fields are likewise grouped.
- Session.ViewOk: the game invariant assumes that the next piece is always a fresh piece in state 0. This holds because only `random_tetromino()` creates next pieces.
