/**
 * Death Pong's state machines: the globals and the function-local statics of
 * the game loop as the fields of one object, and the routines that update
 * them. The interrupt handlers that raise the Alert flags, the joystick and
 * touch readings and `rand()` are inputs; drawing and EEPROM writes are left out.
 */
module Game {
  import opened Stdint
  import opened GameRules

  class DeathPong {
    // Flags the timer interrupts raise and the game loop acknowledges.
    var alertTimer4: bool
    var alertTimerDelay: bool
    var alertGameTick: bool

    /** sw1_debounce's static counter. */
    var debounceCount: int

    // delayWaitFunction: the flags the game raises and the statics that time them.
    var ballWait: int
    var waitLoser: int
    var ballTicks: int       // i
    var loserTicks: int      // j
    var ballWaiting: bool
    var waitingLoser: bool
    var blinking: int
    var heisenbergBlinking: bool

    // The menu.
    var gamemode: Uint8
    var movingJoystick: bool

    // The paddles and the ball.
    var playerWidth: int
    var player1x: int
    var player2x: int
    var ballChangex: int
    var ballChangey: int

    // The scores.
    var player1score: Uint8
    var player2score: Uint8

    /** The program's start: every global and static zero, as C initialises them, and the menu showing. */
    constructor (width: int)
      ensures playerWidth == width
      ensures !alertTimer4 && !alertTimerDelay && !alertGameTick && debounceCount == 0
      ensures BallWaiter() == Waiter(0, 0, false) && LoserWaiter() == Waiter(0, 0, false)
      ensures blinking == 0 && !heisenbergBlinking
      ensures gamemode == 0 && !movingJoystick
      ensures player1x == 0 && player2x == 0 && ballChangex == 0 && ballChangey == 0
      ensures Score() == Scores(0, 0)
    {
      alertTimer4, alertTimerDelay, alertGameTick := false, false, false;
      debounceCount := 0;
      ballWait, waitLoser, ballTicks, loserTicks := 0, 0, 0, 0;
      ballWaiting, waitingLoser := false, false;
      blinking, heisenbergBlinking := 0, false;
      gamemode, movingJoystick := 0, false;
      playerWidth := width;
      player1x, player2x, ballChangex, ballChangey := 0, 0, 0, 0;
      player1score, player2score := 0, 0;
    }

    /** The after-point delay of delayWaitFunction. */
    function BallWaiter(): Waiter
      reads this
    {
      Waiter(ballWait, ballTicks, ballWaiting)
    }

    /** The after-game delay of delayWaitFunction. */
    function LoserWaiter(): Waiter
      reads this
    {
      Waiter(waitLoser, loserTicks, waitingLoser)
    }

    function Score(): Scores
      reads this
    {
      Scores(player1score, player2score)
    }

    function MenuState(): Menu
      reads this
    {
      Menu(gamemode, movingJoystick)
    }

    /**
     * sw1_debounce, called on every pass of the game loop with the level of
     * the SW1 pin (high when released): only a pass after the 20 ms timer
     * fired counts, and it reports a press when the counter reaches 7.
     */
    method Sw1Debounce(pinHigh: bool) returns (pressed: bool)
      modifies this`alertTimer4, this`debounceCount
      ensures !old(alertTimer4) ==> !pressed && debounceCount == old(debounceCount) && !alertTimer4
      ensures old(alertTimer4) ==>
        && !alertTimer4
        && debounceCount == DebounceNext(old(debounceCount), pinHigh)
        && pressed == (debounceCount == DEBOUNCE_FIRE)
    {
      if alertTimer4 {
        if pinHigh {
          debounceCount := 0;
        } else {
          if debounceCount < DEBOUNCE_MAX {
            debounceCount := debounceCount + 1;
          }
        }
        alertTimer4 := false;
        return debounceCount == DEBOUNCE_FIRE;
      } else {
        return false;
      }
    }

    /**
     * delayWaitFunction, called on every pass of the game loop: a pass after
     * the 10 ms timer fired advances both delays and the blink counter.
     */
    method DelayWait()
      modifies this`alertTimerDelay, this`ballWait, this`ballTicks, this`ballWaiting
      modifies this`waitLoser, this`loserTicks, this`waitingLoser, this`blinking, this`heisenbergBlinking
      ensures !old(alertTimerDelay) ==>
        && BallWaiter() == old(BallWaiter()) && LoserWaiter() == old(LoserWaiter())
        && blinking == old(blinking) && heisenbergBlinking == old(heisenbergBlinking) && !alertTimerDelay
      ensures old(alertTimerDelay) ==>
        && !alertTimerDelay
        && BallWaiter() == WaitStep(old(BallWaiter()))
        && LoserWaiter() == WaitStep(old(LoserWaiter()))
        && blinking == BlinkStep(old(blinking))
        && heisenbergBlinking == Blinking(blinking)
    {
      if alertTimerDelay {
        BallDelayTick();
        LoserDelayTick();
        blinking := blinking + 1;
        if blinking > 2 * BLINK_TIME {
          blinking := 0;
        }
        heisenbergBlinking := blinking < BLINK_TIME;
        alertTimerDelay := false;
      }
    }

    /** The after-point part of delayWaitFunction: the ball waits 101 ticks once ballWait is raised. */
    method BallDelayTick()
      modifies this`ballWait, this`ballTicks, this`ballWaiting
      ensures BallWaiter() == WaitStep(old(BallWaiter()))
    {
      if ballWait != 0 && !ballWaiting {
        ballTicks := 0;
        ballWaiting := true;
      }
      if ballWaiting {
        ballTicks := ballTicks + 1;
        if ballTicks > DELAY_TICKS {
          ballWait := 0;
          ballTicks := 0;
          ballWaiting := false;
        }
      }
    }

    /** The after-game part of delayWaitFunction: the same wait, on waitLoser. */
    method LoserDelayTick()
      modifies this`waitLoser, this`loserTicks, this`waitingLoser
      ensures LoserWaiter() == WaitStep(old(LoserWaiter()))
    {
      if waitLoser != 0 && !waitingLoser {
        loserTicks := 0;
        waitingLoser := true;
      }
      if waitingLoser {
        loserTicks := loserTicks + 1;
        if loserTicks > DELAY_TICKS {
          loserTicks := 0;
          waitLoser := 0;
          waitingLoser := false;
        }
      }
    }

    /** gameTick: reports whether the game-speed timer fired, and acknowledges it. */
    method GameTick() returns (tick: bool)
      modifies this`alertGameTick
      ensures tick == old(alertGameTick) && !alertGameTick
    {
      if alertGameTick {
        alertGameTick := false;
        return true;
      }
      return false;
    }

    /**
     * The menu's joystick handling: a deflection moves the selection once and
     * latches until the joystick is centred again.
     */
    method MenuJoystick(direction: int)
      modifies this`gamemode, this`movingJoystick
      ensures MenuState() == MenuStep(old(MenuState()), direction)
    {
      if direction != 0 && !movingJoystick {
        movingJoystick := true;
        if direction == UP {
          gamemode := Wrap8(gamemode - 1);
          if gamemode == 0xFF {
            gamemode := GAMEMODES;
          }
        } else if direction == DOWN {
          gamemode := Wrap8(gamemode + 1);
          if gamemode == GAMEMODES + 1 {
            gamemode := 0;
          }
        }
      } else if direction == 0 {
        movingJoystick := false;
      }
    }

    /**
     * randomizeBall: both speeds from `rand() % 11 - 5`, drawn again in pairs
     * until the vertical speed is non-zero. `draws` are the results of the
     * successive `rand()` calls, and `used` is how many the routine consumed.
     */
    method RandomizeBall(draws: seq<nat>) returns (used: nat)
      requires GoodFrom(draws, 0)
      modifies this`ballChangex, this`ballChangey
      ensures used == 2 * FirstGood(draws, 0) + 2
      ensures ballChangex == Draw(draws[used - 2]) && ballChangey == Draw(draws[used - 1])
      ensures ballChangey != 0
      ensures -BALL_MAX_SPEED <= ballChangex <= BALL_MAX_SPEED && -BALL_MAX_SPEED <= ballChangey <= BALL_MAX_SPEED
    {
      ballChangex := Draw(draws[0]);
      ballChangey := Draw(draws[1]);
      used := 2;
      while ballChangey == 0
        invariant used % 2 == 0 && 2 <= used <= 2 * FirstGood(draws, 0) + 2
        invariant ballChangex == Draw(draws[used - 2]) && ballChangey == Draw(draws[used - 1])
        decreases 2 * FirstGood(draws, 0) + 2 - used
      {
        ballChangex := Draw(draws[used]);
        ballChangey := Draw(draws[used + 1]);
        used := used + 2;
      }
      ghost var q := (used - 2) / 2;
      assert 2 * q + 1 == used - 1;
    }

    /**
     * Player 1's touch-screen paddle on a game tick: when the screen is
     * touched, one step toward the touched column `x`.
     */
    method TouchMove(touched: bool, x: int)
      modifies this`player1x
      ensures player1x == if touched then TouchStep(old(player1x), x) else old(player1x)
    {
      if touched {
        if player1x - x > MAX_SPEED {
          player1x := player1x - MAX_SPEED;
        } else if x - player1x > MAX_SPEED {
          player1x := player1x + MAX_SPEED;
        } else {
          player1x := x;
        }
      }
    }

    /** Player 2's joystick paddle on a game tick: a step left or right, undone at the walls. */
    method JoystickMove(direction: int)
      modifies this`player2x
      ensures player2x == JoystickStep(old(player2x), direction, playerWidth)
    {
      if direction != 0 {
        if direction == LEFT {
          player2x := player2x - MAX_SPEED;
          if player2x < 0 + CHalf(playerWidth) {
            player2x := player2x + MAX_SPEED;
          }
        } else if direction == RIGHT {
          player2x := player2x + MAX_SPEED;
          if player2x > COLS - CHalf(playerWidth) {
            player2x := player2x - MAX_SPEED;
          }
        }
      }
    }

    /**
     * The post-game branch of the game loop, entered while a score is at
     * WIN_SCORE or more: the delays advance, and once the after-game delay is
     * over the scores are settled; the verdict says whether the game is won.
     */
    method PostGame() returns (verdict: Verdict)
      requires GameOver(Score())
      modifies this`alertTimerDelay, this`ballWait, this`ballTicks, this`ballWaiting
      modifies this`waitLoser, this`loserTicks, this`waitingLoser, this`blinking, this`heisenbergBlinking
      modifies this`player1score, this`player2score
      ensures !old(alertTimerDelay) ==>
        && BallWaiter() == old(BallWaiter()) && LoserWaiter() == old(LoserWaiter())
        && blinking == old(blinking) && heisenbergBlinking == old(heisenbergBlinking) && !alertTimerDelay
      ensures old(alertTimerDelay) ==>
        && !alertTimerDelay
        && BallWaiter() == WaitStep(old(BallWaiter()))
        && LoserWaiter() == WaitStep(old(LoserWaiter()))
        && blinking == BlinkStep(old(blinking))
        && heisenbergBlinking == Blinking(blinking)
      ensures waitLoser != 0 ==> Score() == old(Score()) && verdict == Undecided
      ensures waitLoser == 0 ==> Settled(Score(), verdict) == PostGameStep(old(Score()))
    {
      DelayWait();
      verdict := Undecided;
      if waitLoser == 0 {
        if player1score == WIN_SCORE || player2score == WIN_SCORE {
          if player1score == WIN_SCORE && player2score == WIN_SCORE {
            player1score := 0;
            player2score := 0;
          } else if player1score == WIN_SCORE {
            player2score := 0;
            player1score := player1score + 1;
          } else {
            player1score := 0;
            player2score := player2score + 1;
          }
        } else if player1score >= WIN_SCORE {
          player1score := 0;
          player2score := 0;
          verdict := Won(1);
        } else {
          player1score := 0;
          player2score := 0;
          verdict := Won(2);
        }
      }
    }
  }
}
