/**
 * The pure rules inside `TetrisGame` (game.py): the points table and level-up
 * of `update_score`, the T-spin test of `lock_piece`, and the integer timing
 * rules of the main loop (auto-shift, the accelerating down-key delay, gravity
 * and the lock delay).
 */
module Scoring {

  // ---------------------------------------------------------------- constants

  /** `DAS_DELAY, ARR_SPEED`: auto-shift charge and repeat interval, in ms. */
  const DasDelay := 200
  const ArrSpeed := 40
  /** `LOCK_DELAY`, in ms. */
  const LockDelay := 500
  /** `INITIAL_FALL_DELAY`, the gravity delay `start_game` sets. */
  const InitialFallDelay := 1000
  /** The down-key delay `start_game` and every press of the down key set. */
  const InitialDownDelay := 120
  /** `flash_duration_ms`. */
  const FlashDuration := 1500

  // ---------------------------------------------------------------- T-spin

  /**
   * The value `getattr(piece, "name", "")` takes: `Tetromino` never sets a
   * `name` attribute, so the default "" is what the test sees.
   */
  const NameAttribute: string := ""

  /** The simplified T-spin test of `lock_piece`. */
  predicate TSpinTest(name: string, rotated: bool, cleared: int) {
    name == "T" && rotated && cleared > 0
  }

  /** The T-spin test can never succeed, whatever the piece and the clear. */
  lemma TSpinNever(rotated: bool, cleared: int)
    ensures !TSpinTest(NameAttribute, rotated, cleared)
  {
  }

  // ---------------------------------------------------------------- scoring

  /** The counters `update_score` changes: `score`, `lines`, `level`, `b2b`. */
  datatype Tally = Tally(score: int, lines: int, level: int, b2b: bool)

  /** A T-spin double or triple, or a Tetris. */
  predicate Difficult(cleared: int, tspin: bool) {
    (tspin && cleared == 2) || (tspin && cleared == 3) || cleared == 4
  }

  /**
   * `update_score(cleared, is_tspin)`: the new counters and the points awarded.
   * `cleared` outside 0..4 makes the table lookup `{1: 1, 2: 3, 3: 5}[cleared]`
   * raise, so the source can only be called with 0..4.
   */
  function Award(t: Tally, cleared: int, tspin: bool): (res: (Tally, int))
    requires 0 <= cleared <= 4
  {
    if cleared == 0 then (t.(b2b := false), 0)
    else
      var levelMul := t.level + 1;
      var base :=
        if tspin && cleared == 2 then 12
        else if tspin && cleared == 3 then 36
        else if cleared == 4 then 8
        else if cleared == 1 then 1
        else if cleared == 2 then 3
        else 5;
      var difficult := Difficult(cleared, tspin);
      var raw := base * levelMul;
      var points := if difficult && t.b2b then raw * 3 / 2 else raw;
      var lines := t.lines + cleared;
      var level := if lines / 10 > t.level then t.level + 1 else t.level;
      (Tally(t.score + points, lines, level, difficult), points)
  }

  /**
   * The points table, times (level + 1): single 1, double 3, triple 5, Tetris 8,
   * T-spin double 12, T-spin triple 36; a difficult clear right after another
   * difficult one earns half as much again. Back-to-back becomes true exactly
   * for a difficult clear. Clearing nothing earns nothing and only resets
   * back-to-back.
   */
  lemma AwardTable(t: Tally, cleared: int, tspin: bool)
    requires 0 <= cleared <= 4 && t.level >= 0
    ensures var (u, points) := Award(t, cleared, tspin);
      var l := t.level + 1;
      && (cleared == 0 ==> points == 0 && u == t.(b2b := false))
      && (cleared == 1 ==> points == l)
      && (cleared == 2 && !tspin ==> points == 3 * l)
      && (cleared == 3 && !tspin ==> points == 5 * l)
      && (cleared == 4 && !t.b2b ==> points == 8 * l)
      && (cleared == 4 && t.b2b ==> points == 12 * l)
      && (cleared == 2 && tspin && !t.b2b ==> points == 12 * l)
      && (cleared == 2 && tspin && t.b2b ==> points == 18 * l)
      && (cleared == 3 && tspin && !t.b2b ==> points == 36 * l)
      && (cleared == 3 && tspin && t.b2b ==> points == 54 * l)
      && (u.b2b <==> cleared == 4 || (tspin && cleared >= 2))
      && u.score == t.score + points && u.lines == t.lines + cleared
  {
    var l := t.level + 1;
    if cleared == 4 && t.b2b {
      assert 8 * l * 3 == 2 * (12 * l);
    } else if cleared == 2 && tspin && t.b2b {
      assert 12 * l * 3 == 2 * (18 * l);
    } else if cleared == 3 && tspin && t.b2b {
      assert 36 * l * 3 == 2 * (54 * l);
    }
  }

  /**
   * A clear never lowers the score or the line count, raises the level by at
   * most one, and keeps the level at most a tenth of the lines, and equal to it
   * when it was.
   */
  lemma AwardLevel(t: Tally, cleared: int, tspin: bool)
    requires 0 <= cleared <= 4 && t.level >= 0 && t.lines >= 0
    ensures var u := Award(t, cleared, tspin).0;
      && u.score >= t.score && u.lines >= t.lines
      && t.level <= u.level <= t.level + 1
      && (t.level <= t.lines / 10 ==> u.level <= u.lines / 10)
      && (t.level == t.lines / 10 ==> u.level == u.lines / 10)
  {
    if cleared > 0 {
      var l := t.level + 1;
      var raw := (if tspin && cleared == 2 then 12 else if tspin && cleared == 3 then 36
                  else if cleared == 4 then 8 else if cleared == 1 then 1 else if cleared == 2 then 3 else 5) * l;
      assert raw > 0;
      var lines := t.lines + cleared;
      assert lines / 10 <= t.lines / 10 + 1;
    }
  }

  /** At level 0, a Tetris scores 8 and a second Tetris right after it scores 12. */
  lemma BackToBackTetris()
    ensures var (u, first) := Award(Tally(0, 0, 0, false), 4, false);
      first == 8 && Award(u, 4, false).1 == 12
  {
  }

  // ---------------------------------------------------------------- timing

  /** The auto-shift fires once the key has been held for the charge time and the repeat interval has passed. */
  predicate ShiftDue(now: int, dasTimer: int, arrTimer: int) {
    now - dasTimer >= DasDelay && now - arrTimer >= ArrSpeed
  }

  /** Gravity fires only once strictly more than `delay` ms have passed since the last drop. */
  predicate GravityDue(now: int, dropTimer: int, delay: int) {
    now - dropTimer > delay
  }

  /** A blocked piece locks once the lock timer has run for at least the lock delay. */
  predicate LockExpired(now: int, lockTimer: int) {
    now - lockTimer >= LockDelay
  }

  /** The down-key delay after the key has been held `held` ms: 10 ms less per 200 ms held, never below 20. */
  function DownDelay(held: int): int {
    var d := InitialDownDelay - (held / 200) * 10;
    if d > 20 then d else 20
  }

  /** The down-key delay lies in [20, 120] and reaches 20 exactly once the key has been held two seconds. */
  lemma DownDelayBounds(held: int)
    requires held >= 0
    ensures 20 <= DownDelay(held) <= 120
    ensures DownDelay(held) == 20 <==> held >= 2000
  {
  }

  /** Holding the down key longer never makes the delay longer. */
  lemma DownDelayMonotone(h1: int, h2: int)
    requires h1 <= h2
    ensures DownDelay(h2) <= DownDelay(h1)
  {
    var q1, q2 := h1 / 200, h2 / 200;
    assert h1 == 200 * q1 + h1 % 200 && 0 <= h1 % 200 < 200;
    assert h2 == 200 * q2 + h2 % 200 && 0 <= h2 % 200 < 200;
    assert q1 <= q2;
  }

  /** `{"Easy": 1500, "Normal": 800, "Hard": 200}.get(DIFFICULTY, 1500)`. */
  function BaseDelay(difficulty: string): int {
    var table := map["Easy" := 1500, "Normal" := 800, "Hard" := 200];
    if difficulty in table then table[difficulty] else 1500
  }

  /** The base gravity delay is 800 for "Normal", 200 for "Hard" and 1500 for anything else. */
  lemma BaseDelayValues(difficulty: string)
    ensures BaseDelay(difficulty) == if difficulty == "Normal" then 800 else if difficulty == "Hard" then 200 else 1500
  {
  }

  /** `max(50, scaled)`, where `scaled` stands for the float expression `int(base_delay * 0.85 ** level)`. */
  function FallDelay(scaled: int): (d: int)
    ensures d >= 50 && d >= scaled && (d == scaled || d == 50)
  {
    if scaled > 50 then scaled else 50
  }
}
