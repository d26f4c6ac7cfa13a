/**
 * The integer rules of Death Pong: the push-button debounce counter, the
 * after-point and after-game delays, the blink counter, the menu's wrap-around,
 * the contact tests, the ball's random speeds, the paddle steps and the
 * post-game score update. Every rule is a function of the values it reads.
 */
module GameRules {
  import opened Stdint

  /** The last menu entry; the menu offers the game modes 0 to GAMEMODES. */
  const GAMEMODES: int := 5
  /** The most a paddle moves in one game tick. */
  const MAX_SPEED: int := 10
  /** The largest ball speed on either axis. */
  const BALL_MAX_SPEED: int := 5
  /** The score that ends a game. */
  const WIN_SCORE: int := 10
  /** Half of the blink period, in delay ticks. */
  const BLINK_TIME: int := 30
  /** The width of the screen in pixels. */
  const COLS: int := 240
  /** The debounce counter's ceiling. */
  const DEBOUNCE_MAX: int := 10
  /** The count at which a held press is reported. */
  const DEBOUNCE_FIRE: int := 7
  /** The number of ticks a delay counts before it ends: it ends on the tick after. */
  const DELAY_TICKS: int := 100

  /** C's `x / 2` on an `int`: the quotient truncated toward zero. */
  function CHalf(x: int): (r: int)
    ensures x >= 0 ==> 0 <= r && 2 * r <= x < 2 * r + 2
    ensures x < 0 ==> r <= 0 && 2 * r - 2 < x <= 2 * r
  {
    if x >= 0 then x / 2 else -((-x) / 2)
  }

  // ---------------------------------------------------------------------------
  // sw1_debounce

  /** The debounce counter after one serviced tick: reset on release, count up to the ceiling while held. */
  function DebounceNext(count: int, pinHigh: bool): int
  {
    if pinHigh then 0 else if count < DEBOUNCE_MAX then count + 1 else count
  }

  /** The counter stays between 0 and its ceiling, and a release always resets it. */
  lemma DebounceBounded(count: int, pinHigh: bool)
    requires 0 <= count <= DEBOUNCE_MAX
    ensures 0 <= DebounceNext(count, pinHigh) <= DEBOUNCE_MAX
    ensures pinHigh ==> DebounceNext(count, pinHigh) == 0
    ensures !pinHigh ==> DebounceNext(count, pinHigh) == if count < DEBOUNCE_MAX then count + 1 else DEBOUNCE_MAX
  {
  }

  /** How many of `n` serviced ticks with the button held report a press, from counter `count`. */
  function HeldFires(count: int, n: nat): nat
    decreases n
  {
    if n == 0 then 0
    else
      var c := DebounceNext(count, false);
      (if c == DEBOUNCE_FIRE then 1 else 0) + HeldFires(c, n - 1)
  }

  /**
   * Holding the button down reports exactly one press, on the serviced tick
   * that takes the counter to 7; a counter already past 7 reports none.
   */
  lemma {:induction false} HeldPressFiresOnce(count: int, n: nat)
    requires 0 <= count <= DEBOUNCE_MAX
    ensures HeldFires(count, n) == if count < DEBOUNCE_FIRE && count + n >= DEBOUNCE_FIRE then 1 else 0
    decreases n
  {
    if n > 0 {
      HeldPressFiresOnce(DebounceNext(count, false), n - 1);
    }
  }

  /** From a released button, a press held for n serviced ticks is reported once exactly when n >= 7. */
  lemma PressFromReleaseFiresOnce(n: nat)
    ensures HeldFires(0, n) == if n >= DEBOUNCE_FIRE then 1 else 0
  {
    HeldPressFiresOnce(0, n);
  }

  // ---------------------------------------------------------------------------
  // delayWaitFunction

  /**
   * One delay of delayWaitFunction: the flag the game raises (ballWait or
   * waitLoser), the tick counter (i or j) and whether the delay is running
   * (ballWaiting or waitingLoser).
   */
  datatype Waiter = Waiter(flag: int, count: int, waiting: bool)

  /** One serviced tick of a delay: a raised flag starts it, and the tick after the 100th ends it. */
  function WaitStep(w: Waiter): Waiter
  {
    var w1 := if w.flag != 0 && !w.waiting then w.(count := 0, waiting := true) else w;
    if !w1.waiting then w1
    else if w1.count + 1 > DELAY_TICKS then Waiter(0, 0, false)
    else w1.(count := w1.count + 1)
  }

  function WaitIterate(w: Waiter, n: nat): Waiter
    decreases n
  {
    if n == 0 then w else WaitIterate(WaitStep(w), n - 1)
  }

  /** A running delay counts one tick at a time and keeps its flag up while the count stays within 100. */
  lemma {:induction false} WaitCounts(f: int, c: int, n: nat)
    requires 0 <= c && c + n <= DELAY_TICKS
    ensures WaitIterate(Waiter(f, c, true), n) == Waiter(f, c + n, true)
    decreases n
  {
    if n > 0 {
      assert WaitStep(Waiter(f, c, true)) == Waiter(f, c + 1, true);
      WaitCounts(f, c + 1, n - 1);
    }
  }

  /**
   * Once the flag is raised on an idle delay, it stays raised for 100 serviced
   * ticks and is lowered on the 101st, which also resets the counter.
   */
  lemma WaitReleasesOn101st(f: int, c: int, k: nat)
    requires f != 0 && 1 <= k <= DELAY_TICKS
    ensures WaitIterate(Waiter(f, c, false), k) == Waiter(f, k, true)
    ensures WaitIterate(Waiter(f, c, false), DELAY_TICKS + 1) == Waiter(0, 0, false)
  {
    assert WaitStep(Waiter(f, c, false)) == Waiter(f, 1, true);
    WaitCounts(f, 1, k - 1);
    WaitCounts(f, 1, DELAY_TICKS - 1);
    assert WaitIterate(Waiter(f, c, false), DELAY_TICKS) == Waiter(f, DELAY_TICKS, true);
    WaitIterateSplit(Waiter(f, c, false), DELAY_TICKS, 1);
  }

  lemma {:induction false} WaitIterateSplit(w: Waiter, m: nat, n: nat)
    ensures WaitIterate(w, m + n) == WaitIterate(WaitIterate(w, m), n)
    decreases m
  {
    if m > 0 {
      WaitIterateSplit(WaitStep(w), m - 1, n);
    }
  }

  /** An idle delay whose flag is down does nothing. */
  lemma WaitIdle(c: int)
    ensures WaitStep(Waiter(0, c, false)) == Waiter(0, c, false)
  {
  }

  /** The blink counter after one serviced tick: it counts 0 to 60 and starts again. */
  function BlinkStep(b: int): int
  {
    if b + 1 > 2 * BLINK_TIME then 0 else b + 1
  }

  /** Heisenberg mode's blink: the ball is shown while the counter is below 30. */
  predicate Blinking(b: int)
  {
    b < BLINK_TIME
  }

  function BlinkIterate(b: int, n: nat): int
    decreases n
  {
    if n == 0 then b else BlinkIterate(BlinkStep(b), n - 1)
  }

  /** The counter stays in 0..60 and advances modulo 61. */
  lemma BlinkInRange(b: int)
    requires 0 <= b <= 2 * BLINK_TIME
    ensures 0 <= BlinkStep(b) <= 2 * BLINK_TIME
    ensures BlinkStep(b) == (b + 1) % (2 * BLINK_TIME + 1)
  {
  }

  /** After n serviced ticks the counter has advanced by n modulo 61; the blink repeats every 61 ticks. */
  lemma {:induction false} BlinkPeriodic(b: int, n: nat)
    requires 0 <= b <= 2 * BLINK_TIME
    ensures BlinkIterate(b, n) == (b + n) % (2 * BLINK_TIME + 1)
    decreases n
  {
    if n > 0 {
      BlinkPeriodic(BlinkStep(b), n - 1);
      if b == 2 * BLINK_TIME {
        ModPeriod(n - 1);
      }
    }
  }

  lemma ModPeriod(x: nat)
    ensures (x + 2 * BLINK_TIME + 1) % (2 * BLINK_TIME + 1) == x % (2 * BLINK_TIME + 1)
  {
    var p := 2 * BLINK_TIME + 1;
    var q, r := x / p, x % p;
    assert x == p * q + r;
    assert x + p == p * (q + 1) + r;
  }

  // ---------------------------------------------------------------------------
  // The menu

  /** The joystick directions the source tests. */
  const UP: int := 1
  const LEFT: int := 2
  const DOWN: int := 3
  const RIGHT: int := 4

  /**
   * The selected game mode after one joystick move, on a `uint8_t`: up
   * decrements, and the 0xFF a decrement of 0 gives wraps to GAMEMODES; down
   * increments, and GAMEMODES + 1 wraps to 0.
   */
  function MenuMove(gamemode: Uint8, direction: int): Uint8
  {
    if direction == UP then
      var g := Wrap8(gamemode - 1);
      if g == 0xFF then GAMEMODES else g
    else if direction == DOWN then
      var g := Wrap8(gamemode + 1);
      if g == GAMEMODES + 1 then 0 else g
    else gamemode
  }

  /** Menu navigation never leaves the range 0..GAMEMODES, and wraps at both ends. */
  lemma MenuWraps(gamemode: Uint8, direction: int)
    requires gamemode <= GAMEMODES
    ensures MenuMove(gamemode, direction) <= GAMEMODES
    ensures direction == UP ==>
      MenuMove(gamemode, direction) == if gamemode == 0 then GAMEMODES else gamemode - 1
    ensures direction == DOWN ==>
      MenuMove(gamemode, direction) == if gamemode == GAMEMODES then 0 else gamemode + 1
    ensures direction != UP && direction != DOWN ==> MenuMove(gamemode, direction) == gamemode
  {
  }

  /** Up and down undo each other on the menu. */
  lemma MenuUpDownInverse(gamemode: Uint8)
    requires gamemode <= GAMEMODES
    ensures MenuMove(MenuMove(gamemode, UP), DOWN) == gamemode
    ensures MenuMove(MenuMove(gamemode, DOWN), UP) == gamemode
  {
    MenuWraps(gamemode, UP);
    MenuWraps(gamemode, DOWN);
    MenuWraps(MenuMove(gamemode, UP), DOWN);
    MenuWraps(MenuMove(gamemode, DOWN), UP);
  }

  /** The menu's state: the selected mode and the latch that waits for the joystick to return to centre. */
  datatype Menu = Menu(gamemode: Uint8, moving: bool)

  /** One pass of the menu loop: move once per deflection, and re-arm when the joystick is centred. */
  function MenuStep(m: Menu, direction: int): Menu
  {
    if direction != 0 && !m.moving then Menu(MenuMove(m.gamemode, direction), true)
    else if direction == 0 then m.(moving := false)
    else m
  }

  function MenuIterate(m: Menu, direction: int, n: nat): Menu
    decreases n
  {
    if n == 0 then m else MenuIterate(MenuStep(m, direction), direction, n - 1)
  }

  /** A joystick held in one direction for any number of passes moves the selection exactly once. */
  lemma {:induction false} HeldJoystickMovesOnce(m: Menu, direction: int, n: nat)
    requires direction != 0 && !m.moving && n >= 1
    ensures MenuIterate(m, direction, n) == Menu(MenuMove(m.gamemode, direction), true)
    decreases n
  {
    HeldStays(MenuStep(m, direction), direction, n - 1);
  }

  lemma {:induction false} HeldStays(m: Menu, direction: int, n: nat)
    requires direction != 0 && m.moving
    ensures MenuIterate(m, direction, n) == m
    decreases n
  {
    if n > 0 {
      HeldStays(MenuStep(m, direction), direction, n - 1);
    }
  }

  // ---------------------------------------------------------------------------
  // playercontact and wallcontact

  /** An image on the screen: its centre and its extent. */
  datatype Box = Box(x: int, y: int, width: int, height: int)

  /** The strict overlap test of playercontact on one pair of boxes, centre +- half extent. */
  predicate Overlaps(p: Box, b: Box)
  {
    && p.x - CHalf(p.width) < b.x + CHalf(b.width)
    && p.x + CHalf(p.width) > b.x - CHalf(b.width)
    && p.y - CHalf(p.height) < b.y + CHalf(b.height)
    && p.y + CHalf(p.height) > b.y - CHalf(b.height)
  }

  /** playercontact: the ball touches player 2 or player 1. */
  predicate PlayerContact(player1: Box, player2: Box, ball: Box)
  {
    Overlaps(player2, ball) || Overlaps(player1, ball)
  }

  /** A point on the half-pixel grid lies strictly inside a box. */
  predicate Inside(b: Box, px: int, py: int)
  {
    && 2 * (b.x - CHalf(b.width)) < px < 2 * (b.x + CHalf(b.width))
    && 2 * (b.y - CHalf(b.height)) < py < 2 * (b.y + CHalf(b.height))
  }

  /** A box at least two pixels wide and high, so that it has an inside. */
  predicate Solid(b: Box)
  {
    b.width >= 2 && b.height >= 2
  }

  /** Two solid boxes overlap exactly when some point lies strictly inside both. */
  lemma OverlapsMeansSharedPoint(p: Box, b: Box)
    requires Solid(p) && Solid(b)
    ensures Overlaps(p, b) <==> exists px, py :: Inside(p, px, py) && Inside(b, px, py)
  {
    if Overlaps(p, b) {
      var lx := if p.x - CHalf(p.width) > b.x - CHalf(b.width) then p.x - CHalf(p.width) else b.x - CHalf(b.width);
      var ly := if p.y - CHalf(p.height) > b.y - CHalf(b.height) then p.y - CHalf(p.height) else b.y - CHalf(b.height);
      assert Inside(p, 2 * lx + 1, 2 * ly + 1) && Inside(b, 2 * lx + 1, 2 * ly + 1);
    }
  }

  /** playercontact holds exactly when the ball shares a point with one of the paddles. */
  lemma PlayerContactMeansSharedPoint(player1: Box, player2: Box, ball: Box)
    requires Solid(player1) && Solid(player2) && Solid(ball)
    ensures PlayerContact(player1, player2, ball) <==>
      (exists px, py :: Inside(player1, px, py) && Inside(ball, px, py))
      || (exists px, py :: Inside(player2, px, py) && Inside(ball, px, py))
  {
    OverlapsMeansSharedPoint(player1, ball);
    OverlapsMeansSharedPoint(player2, ball);
  }

  /** The overlap test does not care which box is the paddle. */
  lemma OverlapsSymmetric(p: Box, b: Box)
    ensures Overlaps(p, b) == Overlaps(b, p)
  {
  }

  /** wallcontact: the ball's centre is less than one ball width from the left or the right wall. */
  predicate WallContact(ballx: int, ballWidth: int)
  {
    ballx < ballWidth || ballx > COLS - ballWidth
  }

  /** Without wall contact the whole ball, centre +- half its width, is on the screen with half a width to spare. */
  lemma NoWallContactOnScreen(ballx: int, ballWidth: int)
    requires ballWidth >= 0 && !WallContact(ballx, ballWidth)
    ensures 0 <= ballx - CHalf(ballWidth) - CHalf(ballWidth)
    ensures ballx + CHalf(ballWidth) + CHalf(ballWidth) <= COLS
  {
  }

  // ---------------------------------------------------------------------------
  // randomizeBall

  /** A speed from one `rand()` result: `rand() % 11 - 5`. */
  function Draw(n: nat): (r: int)
    ensures -BALL_MAX_SPEED <= r <= BALL_MAX_SPEED
  {
    n % (BALL_MAX_SPEED * 2 + 1) - BALL_MAX_SPEED
  }

  /** Some pair of draws from pair `p` on gives a non-zero vertical speed. */
  predicate GoodFrom(draws: seq<nat>, p: nat)
    decreases |draws| - 2 * p
  {
    2 * p + 1 < |draws| && (Draw(draws[2 * p + 1]) != 0 || GoodFrom(draws, p + 1))
  }

  /** The first pair of draws from `p` on whose vertical speed is non-zero. */
  function FirstGood(draws: seq<nat>, p: nat): (r: nat)
    requires GoodFrom(draws, p)
    ensures p <= r && 2 * r + 1 < |draws| && Draw(draws[2 * r + 1]) != 0
    ensures forall q :: p <= q < r ==> Draw(draws[2 * q + 1]) == 0
    decreases |draws| - 2 * p
  {
    if Draw(draws[2 * p + 1]) != 0 then p else FirstGood(draws, p + 1)
  }

  // ---------------------------------------------------------------------------
  // Paddle steps

  /** The touch-screen paddle: a step of at most MAX_SPEED toward the touched column. */
  function TouchStep(playerx: int, x: int): int
  {
    if playerx - x > MAX_SPEED then playerx - MAX_SPEED
    else if x - playerx > MAX_SPEED then playerx + MAX_SPEED
    else x
  }

  /**
   * The paddle moves by at most MAX_SPEED, lands on the target when it is that
   * close, never overshoots it, and otherwise closes the distance by exactly MAX_SPEED.
   */
  lemma TouchStepToward(playerx: int, x: int)
    ensures -MAX_SPEED <= TouchStep(playerx, x) - playerx <= MAX_SPEED
    ensures -MAX_SPEED <= x - playerx <= MAX_SPEED ==> TouchStep(playerx, x) == x
    ensures playerx <= x ==> playerx <= TouchStep(playerx, x) <= x
    ensures x <= playerx ==> x <= TouchStep(playerx, x) <= playerx
    ensures x - playerx > MAX_SPEED ==> x - TouchStep(playerx, x) == x - playerx - MAX_SPEED
    ensures playerx - x > MAX_SPEED ==> TouchStep(playerx, x) - x == playerx - x - MAX_SPEED
  {
  }

  /** The joystick paddle: MAX_SPEED left or right, undone when it would cross half a paddle from a wall. */
  function JoystickStep(playerx: int, direction: int, playerWidth: int): int
  {
    if direction == LEFT then
      var p := playerx - MAX_SPEED;
      if p < 0 + CHalf(playerWidth) then p + MAX_SPEED else p
    else if direction == RIGHT then
      var p := playerx + MAX_SPEED;
      if p > COLS - CHalf(playerWidth) then p - MAX_SPEED else p
    else playerx
  }

  /** The wall cut-offs: half a paddle from either wall. */
  predicate PaddleInBounds(playerx: int, playerWidth: int)
  {
    CHalf(playerWidth) <= playerx <= COLS - CHalf(playerWidth)
  }

  /**
   * A paddle in bounds stays in bounds; a move is made exactly when it lands
   * in bounds, and otherwise the paddle stays where it was.
   */
  lemma JoystickStaysInBounds(playerx: int, direction: int, playerWidth: int)
    requires PaddleInBounds(playerx, playerWidth)
    ensures PaddleInBounds(JoystickStep(playerx, direction, playerWidth), playerWidth)
    ensures direction == LEFT ==>
      JoystickStep(playerx, direction, playerWidth)
        == if PaddleInBounds(playerx - MAX_SPEED, playerWidth) then playerx - MAX_SPEED else playerx
    ensures direction == RIGHT ==>
      JoystickStep(playerx, direction, playerWidth)
        == if PaddleInBounds(playerx + MAX_SPEED, playerWidth) then playerx + MAX_SPEED else playerx
    ensures direction != LEFT && direction != RIGHT ==> JoystickStep(playerx, direction, playerWidth) == playerx
  {
  }

  // ---------------------------------------------------------------------------
  // The post-game score update

  datatype Scores = Scores(player1: Uint8, player2: Uint8)

  /** The game is over for the main loop: the leading score has reached WIN_SCORE. */
  predicate GameOver(s: Scores): (over: bool)
    ensures over <==> (if s.player1 >= s.player2 then s.player1 else s.player2) >= WIN_SCORE
  {
    s.player1 >= WIN_SCORE || s.player2 >= WIN_SCORE
  }

  /** What a pass of the post-game branch decides. */
  datatype Verdict = Undecided | Won(player: nat)

  datatype Settled = Settled(scores: Scores, verdict: Verdict)

  /**
   * One pass of the post-game branch once the delay is over: a tie at
   * WIN_SCORE resets both scores; a single score at WIN_SCORE is pushed one
   * past it and the other reset, which shows the winner on the next pass; a
   * score past WIN_SCORE names its player the winner and resets both.
   */
  function PostGameStep(s: Scores): Settled
    requires GameOver(s)
  {
    if s.player1 == WIN_SCORE || s.player2 == WIN_SCORE then
      if s.player1 == WIN_SCORE && s.player2 == WIN_SCORE then Settled(Scores(0, 0), Undecided)
      else if s.player1 == WIN_SCORE then Settled(Scores(s.player1 + 1, 0), Undecided)
      else Settled(Scores(0, s.player2 + 1), Undecided)
    else if s.player1 >= WIN_SCORE then Settled(Scores(0, 0), Won(1))
    else Settled(Scores(0, 0), Won(2))
  }

  /**
   * A tie at WIN_SCORE is replayed from 0-0; a single player at WIN_SCORE gets
   * WIN_SCORE + 1 and the other 0; once a score is past WIN_SCORE the game ends
   * with both scores reset.
   */
  lemma PostGameTransitions(s: Scores)
    requires GameOver(s)
    ensures s.player1 == WIN_SCORE && s.player2 == WIN_SCORE ==> PostGameStep(s) == Settled(Scores(0, 0), Undecided)
    ensures s.player1 == WIN_SCORE && s.player2 != WIN_SCORE ==>
      PostGameStep(s) == Settled(Scores(WIN_SCORE + 1, 0), Undecided)
    ensures s.player2 == WIN_SCORE && s.player1 != WIN_SCORE ==>
      PostGameStep(s) == Settled(Scores(0, WIN_SCORE + 1), Undecided)
    ensures s.player1 != WIN_SCORE && s.player2 != WIN_SCORE ==>
      PostGameStep(s).scores == Scores(0, 0) && PostGameStep(s).verdict != Undecided
  {
  }

  /**
   * A player who reaches WIN_SCORE alone is declared the winner on the next
   * pass, after which both scores are 0.
   */
  lemma SoleWinnerDeclared(s: Scores)
    requires (s.player1 == WIN_SCORE) != (s.player2 == WIN_SCORE)
    ensures var next := PostGameStep(s).scores;
      && GameOver(next)
      && PostGameStep(next) == Settled(Scores(0, 0), Won(if s.player1 == WIN_SCORE then 1 else 2))
  {
  }

  /** A tie leaves nobody at WIN_SCORE, so play resumes. */
  lemma TieResumesPlay(s: Scores)
    requires s.player1 == WIN_SCORE && s.player2 == WIN_SCORE
    ensures !GameOver(PostGameStep(s).scores)
  {
  }
}
