# Death Pong: the I/O-expander driver and the game loop's state machines

Death Pong is a two-player pong game for a TM4C123 board with an LCD, a touch
screen, a joystick and an MCP23017 I/O expander on I2C. This project models
two parts of its firmware in Dafny and proves properties of the model.

- **The MCP23017 register driver** (`Project/io_expander.c`), in modules
  `I2c`, `I2cMaster`, `Mcp23017`, `Gpio` and `IoExpander`. It covers:
  - the acknowledge poll `io_expander_wait_for_write`;
  - `io_expander_write_reg` and `io_expander_read_reg`;
  - `io_expander_init`.

  The I2C master named by `i2c_base` is a class, `I2cMaster.Master`. Each of its
  operations has a contract over a snapshot datatype, `Bus`. The snapshot holds:
  - an event trace of every call;
  - scripted answers for the calls whose outcome comes from hardware. A send
    framed START|RUN|STOP is a whole one-byte transaction; in this driver only
    the acknowledge poll's probes are such sends. They answer from a script of
    their own, apart from the sends inside longer transactions;
  - a simulated MCP23017, whose register file the writes change and the reads
    return.

  The GPIO port is a class, `Gpio.Port`, that records its calls and answers
  them from a script.
- **The game loop's timing and game rules** (`Project/main.c`):
  - the SW1 debounce, the 10 ms delays and the blink counter, and the
    game-speed tick;
  - the menu's joystick wrap;
  - the paddle/ball and wall contact tests;
  - the random ball launch;
  - the touch and joystick paddle steps;
  - the post-game score update.

  The globals and the function-local statics become the fields of one object,
  `Game.DeathPong`. Each routine becomes a method that updates those fields and
  is specified by a pure function in `GameRules`. The lemmas in `GameRules`
  state what those functions guarantee over many passes of the loop.

The interrupt flags `AlertTimer4`, `AlertTimerDelay` and `AlertGameTick` are
fields of `Game.DeathPong` (`alertTimer4`, `alertTimerDelay`, `alertGameTick`).
The caller sets them before a call, as the interrupt routines would, and the
contracts read them as they were before the call.

These become parameters of the methods:
- the SW1 pin level;
- the joystick direction;
- the touch position;
- the results of `rand()`.

## Model

| member | source | states |
|---|---|---|
| IoExpander.Poll | Project/io_expander.c:6-34 | io_expander_wait_for_write on the state before the call: I2C_INVALID_BASE on a bad base, otherwise a write-mode address setting and then the loop |
| IoExpander.PollFrom | Project/io_expander.c:21-33 | the do-while from its next pass on: it consumes the ACK script up to and including its first ACK, and keeps the base and direction |
| IoExpander.WaitForWrite | Project/io_expander.c:6-34 | on a bad base, returns I2C_INVALID_BASE with the master untouched; otherwise sets the write address once and loops send/busy-wait/ACK query until an ACK, ending in the state and status of Poll |
| IoExpander.PollShape | Project/io_expander.c:11-33 | on a bad base, the poll is a bare I2C_INVALID_BASE; on a good one, the trace is one write-mode address setting then one probe frame per pass; the ACK script is consumed up to its first ACK; a good base consumes one address answer (the write-mode address setting) and a bad one none; the master's set-up is untouched |
| IoExpander.PollTrace | Project/io_expander.c:11-33 | the poll's calls: none on a bad base; on a good one, the write-mode address setting and then a 0x00 probe framed START,RUN,STOP and a busy-wait, once for each NACK before the first ACK and once more for the ACK |
| IoExpander.PollFromTrace | Project/io_expander.c:21-31 | the do-while makes one more pass than there are NACKs before the first ACK, each pass a 0x00 byte framed START,RUN,STOP followed by the busy-wait |
| IoExpander.PollFromAnswers | Project/io_expander.c:25 | each pass of the poll consumes exactly one answer of the one-byte send script |
| IoExpander.PollFromStatus | Project/io_expander.c:25-33 | the poll returns the status of its last probe, not of the address setting |
| IoExpander.PollFromDevice | Project/io_expander.c:21-31 | the probes change no register; a probe can only point the expander at register 0x00, and when the poll returns I2C_OK in write mode it does; the address, send and receive scripts and the master's set-up are unchanged |
| IoExpander.PollKeepsReceive | Project/io_expander.c:6-34 | the poll makes no receive call, so the receive script is untouched |
| IoExpander.PollTracePayload | Project/io_expander.c:25 | the poll's probe frames carry no payload |
| IoExpander.WriteRegSpec | Project/io_expander.c:105-158 | io_expander_write_reg on the state before the call: it keeps the base and consumes one poll's worth of the ACK script |
| IoExpander.WriteReg | Project/io_expander.c:105-158 | the method makes the calls of io_expander_write_reg and ends in the state WriteRegSpec gives |
| IoExpander.WriteRegShape | Project/io_expander.c:110-154 | the write's trace is busy-wait, write address, the poll, the selector framed START,RUN, then the data framed RUN,STOP; both bytes go out whatever the address setting and the poll returned |
| IoExpander.WritePolled | Project/io_expander.c:110-122 | on a healthy bus, the write's address setting and poll leave the bus healthy, in write mode, with the registers unchanged, whatever the probes returned |
| IoExpander.WriteRegStores | Project/io_expander.c:128-154 | on a healthy bus (every address setting, every send inside a transaction and every receive succeeds; the poll's probes may fail), the write stores `data` in register `reg`, and only there, and the bus stays healthy |
| IoExpander.WriteRegPayload | Project/io_expander.c:128-154 | the payload of a register write is its selector followed by its data byte |
| IoExpander.WriteRegKeepsSetup | Project/io_expander.c:105-158 | a register write does not touch the master's set-up |
| IoExpander.ReadRegSpec | Project/io_expander.c:161-223 | io_expander_read_reg on the state before the call; a failed address setting returns its status as the value, and an unchecked failed receive returns the uninitialised byte |
| IoExpander.ReadReg | Project/io_expander.c:161-223 | the method makes the calls of io_expander_read_reg and returns the value ReadRegSpec gives |
| IoExpander.ReadRegShape | Project/io_expander.c:167-222 | the read's trace is busy-wait, poll, write address, selector, read address, one received byte; a failed address setting ends the call there and its status is returned as the value |
| IoExpander.ReadStopsAtWrite | Project/io_expander.c:167-179 | a failed write-mode address setting ends the read after it and is returned as the value |
| IoExpander.ReadStopsAtRead | Project/io_expander.c:175-209 | a failed read-mode address setting ends the read after the selector and it, and is returned as the value |
| IoExpander.ReadCompletes | Project/io_expander.c:167-219 | when both address settings succeed, the read makes all its calls, ending with one receive framed START,RUN,STOP |
| IoExpander.ReadAddressed | Project/io_expander.c:175-209 | on a healthy bus, both address settings and the selector succeed, leaving the expander in read mode at register `reg` with its registers unchanged |
| IoExpander.ReadRegHealthy | Project/io_expander.c:175-222 | on a healthy bus, the read returns the register's value, changes no register and leaves the bus healthy |
| IoExpander.WriteThenRead | Project/io_expander.c:105-223 | on a healthy bus, writing `v` to a register and reading it back returns `v`, whatever the probes of both polls returned; only that register changed |
| IoExpander.BusyRoundTrip | Project/io_expander.c:21-33 | a device that NACKs the first probe of each poll, with every probe reporting a failed send, still reads back the written value: the drivers ignore the probes' status |
| IoExpander.ReadRegChecked | Project/io_expander.c:161-223 | the read with its own error channel: a failed address setting or receive is reported as a failure, not as a register value |
| IoExpander.ReadRegCheckedSeparates | Project/io_expander.c:175-219 | the checked read makes the same calls; it reports a failure exactly when an address setting or the receive failed; a failed address setting's status is what the original returns as data; otherwise it reports the byte the original returns |
| IoExpander.WriteThenReadChecked | Project/io_expander.c:105-223 | on a healthy bus, with the checked read, the round trip yields the written value as data |
| IoExpander.ReadRegConflatesStatus | Project/io_expander.c:175-179 | as written, a read on a bad base and a good read of a register that holds 0x01 return the same byte |
| IoExpander.GpioFailure | Project/io_expander.c:40-82 | the first GPIO step whose call fails, with every earlier step succeeding; 8 when none fails |
| IoExpander.RequestStep | Project/io_expander.c:40-82 | one GPIO step after the earlier ones succeeded: the call is recorded, and it fails exactly at the first failing step |
| IoExpander.ConfigureScl | Project/io_expander.c:45-59 | the three SCL calls, in order, stopping at the first that fails |
| IoExpander.ConfigureSda | Project/io_expander.c:63-82 | the four SDA calls, in order, stopping at the first that fails |
| IoExpander.ConfigurePins | Project/io_expander.c:40-82 | the GPIO calls of init are made in source order up to and including the first failure; success exactly when none fails |
| IoExpander.ConfigureRegisters | Project/io_expander.c:85-92 | the five register writes, in source order, one write_reg each |
| IoExpander.WriteAllTrace | Project/io_expander.c:85-92 | a run of writes appends the events of each write in turn |
| IoExpander.WriteAllKeepsSetup | Project/io_expander.c:85-92 | a run of writes leaves the master's set-up alone |
| IoExpander.WriteAll | Project/io_expander.c:86-92 | a run of io_expander_write_reg calls, one per pair in order; it keeps the base valid or invalid |
| IoExpander.WritesPayload | Project/io_expander.c:85-92 | the payload of a run of writes is its selector/data pairs, in order |
| IoExpander.WriteAllStores | Project/io_expander.c:85-92 | on a healthy bus, a run of writes leaves the register file as the writes applied one after the other |
| IoExpander.InitBus | Project/io_expander.c:85-101 | init's effect on the master after the GPIO steps: the master's set-up is its last call, and the master is armed exactly when that set-up returns I2C_OK |
| IoExpander.InitWritesInOrder | Project/io_expander.c:85-101 | init's trace is the five writes and then the master's set-up; its payload is the five pairs in source order; the master ends up armed exactly when its set-up returns I2C_OK |
| IoExpander.ApplyConfigWrites | Project/io_expander.c:86-92 | the five writes set IODIRB, DEFVALB, GPPUB and GPINTENB to 0x0F and IODIRA to 0x00 |
| IoExpander.InitConfiguresDevice | Project/io_expander.c:85-92 | on a healthy bus, init stores the five configuration values and leaves every other register as it was |
| IoExpander.Init | Project/io_expander.c:37-103 | on a GPIO failure, init returns false with the master untouched, after the calls up to that failure; otherwise it makes all GPIO calls, the five writes and the set-up, and returns whether the set-up returned I2C_OK |
| Game.DeathPong.constructor | Project/main.c:39-85 | the program's start: every global and static zero, as C's static storage, and the menu state at mode 0 |
| GameRules.DebounceNext | Project/main.c:100-107 | the debounce counter after a serviced tick: 0 on release, one more while held, up to 10 |
| Game.DeathPong.Sw1Debounce | Project/main.c:89-116 | without the 20 ms flag: nothing changes and no press; with it: the flag is acknowledged, the counter takes its next value, and a press is reported exactly when the counter is 7 |
| GameRules.DebounceBounded | Project/main.c:100-107 | the debounce counter stays in 0..10; a release resets it; a held button counts up to 10 and stays there |
| GameRules.HeldPressFiresOnce | Project/main.c:96-112 | holding SW1 reports exactly one press, on the tick that takes the counter to 7; a counter already past 7 reports none |
| GameRules.PressFromReleaseFiresOnce | Project/main.c:96-112 | from a released button, a press held for n serviced ticks is reported once if n >= 7, never otherwise |
| GameRules.WaitStep | Project/main.c:131-143 | one serviced tick of a delay: a raised flag starts it from 0; a running delay counts, and on passing 100 lowers the flag and resets |
| Game.DeathPong.DelayWait | Project/main.c:119-166 | without the 10 ms flag: nothing changes; with it: both delays and the blink counter advance one tick, heisenbergBlinking is updated, and the flag is acknowledged |
| Game.DeathPong.BallDelayTick | Project/main.c:130-143 | the after-point delay advances one tick by WaitStep |
| Game.DeathPong.LoserDelayTick | Project/main.c:145-157 | the after-game delay advances one tick by WaitStep |
| GameRules.WaitCounts | Project/main.c:135-143 | a running delay counts one per tick and keeps its flag raised while the count stays within 100 |
| GameRules.WaitReleasesOn101st | Project/main.c:131-157 | once raised on an idle delay, a flag stays up for 100 serviced ticks and is lowered on the 101st, with the counter reset |
| GameRules.WaitIdle | Project/main.c:131-143 | an idle delay whose flag is down is unchanged by a tick |
| GameRules.BlinkStep | Project/main.c:159-160 | the blink counter after a serviced tick: one more, back to 0 past 60 |
| GameRules.Blinking | Project/main.c:161 | the Heisenberg ball is shown while the counter is below 30 |
| GameRules.BlinkInRange | Project/main.c:159-160 | the blink counter stays in 0..60 and advances by one modulo 61 |
| GameRules.BlinkPeriodic | Project/main.c:159-161 | after n ticks the blink counter has advanced by n modulo 61, so the Heisenberg blink repeats every 61 ticks |
| Game.DeathPong.GameTick | Project/main.c:169-177 | returns whether the game-speed flag was raised, and lowers it |
| Game.DeathPong.MenuJoystick | Project/main.c:853-876 | the menu state after one pass is MenuStep of the state before |
| GameRules.MenuMove | Project/main.c:857-864 | one joystick move on the uint8_t game mode: up decrements and wraps 0xFF to GAMEMODES, down increments and wraps GAMEMODES + 1 to 0 |
| GameRules.MenuStep | Project/main.c:853-876 | one pass of the menu: a deflection moves once and latches; a centred joystick releases the latch |
| GameRules.MenuWraps | Project/main.c:857-864 | up selects the previous mode and wraps from 0 to GAMEMODES through the uint8_t 0xFF; down selects the next and wraps from GAMEMODES to 0; the selection stays in 0..GAMEMODES |
| GameRules.MenuUpDownInverse | Project/main.c:857-864 | up then down, and down then up, return to the selected mode |
| GameRules.HeldJoystickMovesOnce | Project/main.c:853-876 | a joystick held in one direction over any number of passes moves the selection exactly once |
| GameRules.HeldStays | Project/main.c:853-876 | once latched, a held joystick does not change the menu |
| GameRules.Overlaps | Project/main.c:754-763 | one pair of boxes' strict centre-plus-or-minus-half-extent overlap test, with C's truncating /2 |
| GameRules.PlayerContact | Project/main.c:749-770 | playercontact: the ball overlaps player 2 or player 1 |
| GameRules.OverlapsMeansSharedPoint | Project/main.c:754-763 | playercontact's strict centre-plus-or-minus-half-extent test (with C's truncating /2) holds exactly when some point lies strictly inside both boxes |
| GameRules.PlayerContactMeansSharedPoint | Project/main.c:749-770 | playercontact holds exactly when the ball shares a point with player 1 or with player 2 |
| GameRules.OverlapsSymmetric | Project/main.c:754-763 | the overlap test does not depend on which box is the paddle |
| GameRules.WallContact | Project/main.c:773-783 | wallcontact: the ball's centre is less than one ball width from the left wall or more than COLS minus one width from the left |
| GameRules.NoWallContactOnScreen | Project/main.c:773-783 | without wall contact, the whole ball is on the 240-column screen with half a ball width to spare on each side |
| GameRules.CHalf | Project/main.c:754-763 | C's `/ 2` on int: the quotient truncated toward zero |
| GameRules.Draw | Project/main.c:788-789 | `rand() % 11 - 5` lies in -5..5 |
| GameRules.FirstGood | Project/main.c:791-794 | the first pair of draws with a non-zero vertical speed; every earlier pair has vertical speed 0 |
| Game.DeathPong.RandomizeBall | Project/main.c:787-795 | consumes draws in pairs up to and including the first pair with a non-zero vertical speed; the speeds are that pair's draws; the vertical speed is non-zero and both lie in -5..5 |
| Game.DeathPong.TouchMove | Project/main.c:1250-1256 | when touched, player 1's paddle takes TouchStep toward the touched column; otherwise it stays |
| GameRules.TouchStep | Project/main.c:1251-1256 | player 1's step toward the touched column, at most 10 |
| GameRules.TouchStepToward | Project/main.c:1251-1256 | the paddle moves at most 10, lands on the target when within 10, never overshoots, and otherwise closes the gap by exactly 10 |
| Game.DeathPong.JoystickMove | Project/main.c:1273-1295 | player 2's paddle takes JoystickStep in the joystick's direction |
| GameRules.JoystickStep | Project/main.c:1284-1295 | player 2's step of 10 left or right, undone when it would pass half a paddle from a wall |
| GameRules.JoystickStaysInBounds | Project/main.c:1284-1295 | a paddle within half a paddle of the walls stays so; a step left or right is taken exactly when it stays in bounds, otherwise the paddle stays put |
| Game.DeathPong.PostGame | Project/main.c:1155-1225 | delayWaitFunction's effect in full: without the 10 ms flag nothing of it changes; with it both delays and the blink counter advance and the flag is acknowledged; while the after-game delay runs, the scores are kept and nothing is decided; once it is over, the scores and verdict are PostGameStep of the scores before |
| GameRules.GameOver | Project/main.c:1155 | the post-game branch is taken exactly when the leading score has reached winScore (10) |
| GameRules.PostGameStep | Project/main.c:1159-1224 | one pass of the post-game branch after the delay: tie at 10 to 0-0, a sole 10 to 11 and 0, past 10 to 0-0 with a winner |
| GameRules.PostGameTransitions | Project/main.c:1159-1205 | a tie at 10 resets to 0-0; a single player at 10 gets 11 and the other 0; a score past 10 resets both and names a winner |
| GameRules.SoleWinnerDeclared | Project/main.c:1159-1224 | a player alone at 10 is declared the winner on the next pass, with both scores reset to 0 |
| GameRules.TieResumesPlay | Project/main.c:1160-1168 | after a tie at 10, neither score is at 10 or more, so play resumes |
| Stdint.Wrap8 | Project/main.c:858-863 | `uint8_t` arithmetic modulo 256, the identity on 0..255 |

## Left out

- These are not part of this model: the I2C master driver (`i2cVerifyBaseAddr`, `i2cSetSlaveAddr`, `i2cSendByte`, `i2cGetByte`, `I2CMasterBusy`, `I2CMasterAdrAck`, `initializeI2CMaster`) and the GPIO driver. Their calls have contracts whose answers come from a script; their register-level behaviour is not modelled.
- `I2CMasterBusy` spins are modelled as a single `Idle` event. Transfers complete synchronously, so bus timing is not modelled.
- `MCP23017_DEV_ID` is not modelled: there is one slave on the bus.
- Constants defined in headers that are not part of this model take standard values:
  - `I2C_OK = 0` and `I2C_INVALID_BASE = 1` (the first two enumerators);
  - the MCP23017 register addresses for IOCON.BANK = 0 (IODIRA 0x00, IODIRB 0x01, GPINTENB 0x05, DEFVALB 0x07, GPPUB 0x0D);
  - `COLS = 240`.
- The MCP23017's address pointer auto-increment (IOCON.SEQOP = 0) is not modelled. On the chip the pointer moves on after the one data byte of each write or read; the model leaves it at the selected register (`WriteRegStores` ensures `pointer == reg`). No result of the driver depends on it, because every transaction selects its register again.
- Writes made before `initializeI2CMaster` arms the master are not modelled as failing. In init they do come first; `InitWritesInOrder` states that order.
- `i2cGetByte`'s effect on `data` when it fails is not visible in this model (the I2C driver is not part of it). The model takes it to leave the uninitialised byte, an unconstrained `stale` value of the bus; the same byte stands for a receive outside read mode, which the driver never makes.
- `stale`, the byte a failed receive returns, is one value for the whole bus. Two failed receives on one bus therefore return the same byte. In C each call has its own uninitialised `data` (`Project/io_expander.c:164`), which may differ from call to call. No lemma depends on two such bytes being equal.
- A send that fails delivers nothing to the device, and a send that succeeds in write mode always does. Bus errors that corrupt a delivered byte are not modelled.
- IoExpander.WaitForWrite: the source loops until an ACK arrives and may spin forever. The model requires the ACK script to hold an ACK (`HasAck`, `AcksFor`), which bounds the loop; `Init`, `WriteReg` and `ReadReg` carry the same requirement.
- IoExpander.ConfigureRegisters: makes the five `io_expander_write_reg` calls by walking the `ConfigWrites` table in a loop rather than as five literal calls. The calls, arguments and order are the same.
- GameRules.OverlapsMeansSharedPoint: the geometric reading is stated for boxes at least 2 pixels wide and high (`Solid`). Narrower boxes have a truncated half extent of 0 and no inside.
- Game.DeathPong.RandomizeBall: the draws must contain a pair with a non-zero vertical speed (`GoodFrom`). A `rand()` that never gives one would make the loop spin forever.
- The C `int` fields (counters, coordinates, speeds) are unbounded integers in the model. The counters stay within small bounds (0..10, 0..101, 0..60), so 32-bit overflow is not modelled. The `uint8_t` game mode wraps with `Wrap8`; the scores are `Uint8` but the model's score arithmetic never goes past 11.
- Everything in `main.c` outside the routines above is left out, as board I/O or per-mode glue:
  - LCD drawing;
  - EEPROM reads and writes of the scores and the game mode;
  - ADC sampling of the joystick and the accelerometer;
  - the touch-controller reads;
  - the ball's flight per game mode, including the gravity mode;
  - the interrupt service routines, whose concurrency with the main loop is not modelled (they appear only as the flags they raise).
- The `done` flag that ends the game loop is reported as the `Won` verdict of `PostGame`.

## Findings

| source | as written | input that shows it | evidently intended | confidence | as-written member | corrected member |
|---|---|---|---|---|---|---|
| Project/io_expander.c:175-179,205-209 | `io_expander_read_reg` returns a failed address setting's `i2c_status_t` as the `uint8_t` register value | a bad base address (status I2C_INVALID_BASE = 1) and a good read of a register holding 0x01 both return 0x01 | the failure is reported apart from the data, so a caller can tell the two apart | not executed | IoExpander.ReadRegConflatesStatus | IoExpander.ReadRegChecked |
