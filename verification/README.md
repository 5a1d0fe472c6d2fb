# Breakout game logic in Dafny

This project models the game logic of a single-screen brick-breaker written as
one browser script, `game.js`. A paddle deflects a ball into a wall of 9 × 5
bricks. Every destroyed brick scores one point. Four lives are lost one at a
time when the ball passes the paddle. The game is won at 45 points and lost at
0 lives.

Once the game has been started the canvas is 800 × 600. From then on every
quantity in the script (ball radius 10, speeds ±5, paddle width 100, paddle
step 8, the brick layout constants) is an integer, so the model uses `int`
throughout and needs no floating point.

The model is functional. It has one immutable `Game` record and pure functions
for each part of the script:

- `Tick` is one call of `draw` without its rendering.
- `KeyDown` and `KeyUp` are the keyboard handlers.
- `StartGame` and `ResumeGame` are the two menu buttons.
- `ResetGame`, `ShowStartMenu`, `ShowPauseMenu` and `HideMenu` are the state
  effects of the helper functions with those names.

The browser's `alert` followed by `document.location.reload()` ends a session.
It is modelled by the terminal outcomes `Won` and `Lost`. `PageLoad` is the
state a freshly loaded page starts in.

Modules, leaf first:

- `Layout` (layout.dfy): the constants, the brick position formula
  (`BrickX(c) = 85c + 30`, `BrickY(r) = 30r + 60`), and the facts that bricks
  lie on the canvas, do not overlap, and lie in the band 60 < y < 200.
- `Bricks` (bricks.dfy): the 9 × 5 status grid, indexed `[c][r]` like the
  script's `bricks[c][r]`. It also counts standing bricks and destroys one.
- `State` (state.dfy): the `Game` record, the serve, `resetGame`, the three
  menu switches, and the loaded page. The record holds the script's globals
  plus two fields. `menu` records which menu is shown, because it decides
  which button can be clicked. `outcome` is `InPlay`, `Won` or `Lost`.
- `Frame` (frame.dfy): `collisionDetection` as a column-major scan (`ScanGrid`
  over `ScanColumn` over `HitBrick`). It also holds the ball movement, the
  side, top and bottom rules, the paddle movement, and `Tick`.
- `Input` (input.dfy): the key handlers, `startGame` and `resumeGame`, and
  lemmas on pausing.
- `Invariant` (invariant.dfy): the invariant `Inv` of every reachable state,
  and one preservation lemma per operation.
- `Session` (session.dfy): events (frames, key presses and releases, button
  clicks), runs of events, reachability, per-event progress, and two
  paddle scenarios.

## Quirks of the code

- **Pause key.** Pausing goes through `showPauseMenu`, which clears
  `gameRunning`. The key handler only acts while `gameRunning` is set, so a
  second press of the pause key is ignored, and only the resume button
  continues the game (`PauseFreezes`, `PauseThenResume`). The unpause branch of
  the key handler (game.js:127-129) hides the menu and runs a frame, exactly as
  the resume button does (`KeyDown`), but no state reachable from the loaded
  page enters it (`UnpauseUnreachable`).
- **Paddle range.** The paddle handler refuses a step only once the paddle is
  at or past an edge, so it can overshoot; it is never clamped. Every paddle
  position is 350 plus a multiple of 8, so the overshoot is at most 2 and the
  paddle stays in [-2, 702] (`PaddleOnTrack`, `PaddleBounds`).
- **Paddle contact.** The ball counts as over the paddle when its already-moved
  x lies strictly between `paddleX` and `paddleX + 100` (game.js:233).
- **Wall and bottom checks.** `draw` first moves the ball (game.js:221-223) and
  then tests the moved position plus the velocity once more (game.js:226-230).
- **Game over.** The miss branch tests `lives <= 0` (game.js:240). Under the
  invariant this happens exactly when lives reaches 0.
- **One hit per frame.** The ball does not move during the brick scan and the
  bricks are disjoint open rectangles, so at most one brick is hit per frame
  (`CollisionDetection`). `HitBrick` reverses `vy` once per hit, so two hits
  would cancel out, but they cannot happen.

## Model

| member | source | states |
|---|---|---|
| `Layout.WallOnCanvas` | game.js:192-193 | The brick edges `BrickX` and `BrickY` put every brick of the wall inside the 800 × 600 canvas, and each column (row) starts exactly one padding of 10 after the previous one ends. |
| `Layout.ColumnsDisjoint` | game.js:188-195 | A ball centre strictly inside the x-range `BrickX(c)` to `BrickX(c) + 75` of one column lies inside no brick of any other column. |
| `Layout.RowsDisjoint` | game.js:188-195 | Within one column, a ball centre lies inside at most one brick: the y-ranges `BrickY(r)` to `BrickY(r) + 20` of different rows are disjoint. |
| `Layout.BrickArea` | game.js:93-99 | Every point inside a brick of the 9 × 5 wall lies between the wall's left edge and the right edge of its last column (30 < x < 785), and between its top edge and the bottom edge of its last row (60 < y < 200). |
| `Bricks.CountColumn` | game.js:104-106 | The standing bricks of a column number at most its length; the count is 0 exactly when none stands and full exactly when all stand. |
| `Bricks.CountActive` | game.js:101-107 | The standing bricks of the wall number at most 5 per column; the count is 0 exactly when every column's count is 0. |
| `Bricks.Full` | game.js:101-107 | The wall built at load time has every brick standing, 45 in all. |
| `Bricks.Destroy` | game.js:156 | Setting one brick's status to 0 clears that brick, leaves every other brick as it was, and removes one standing brick exactly when it was standing. |
| `Bricks.EmptyGrid` | game.js:161 | The wall has no standing brick counted exactly when every brick's status is 0. |
| `Bricks.FullCount` | game.js:101-107 | A wall of n complete columns of 5 standing bricks counts 5n standing bricks. |
| `Bricks.AtMostBrickCount` | game.js:93-94 | A 9 × 5 wall never holds more than 45 standing bricks. |
| `Bricks.ClearColumnCount` | game.js:156 | Clearing one cell of a column lowers the column's count by one exactly when that cell was standing. |
| `Bricks.ReplaceColumnCount` | game.js:156 | Replacing one column changes the wall's count by the difference between the old and new column counts. |
| `State.Serve` | game.js:244-248 | After a serve the ball is at (400, 570) moving at (5, -5) and the paddle is at 350; nothing except ball and paddle changes. |
| `State.ResetGame` | game.js:80-90 | The reset serves, sets score 0 and lives 4, and leaves the brick grid and everything else untouched. |
| `State.ShowStartMenu` | game.js:39-45 | Showing the start menu stops the loop and changes nothing else. |
| `State.ShowPauseMenu` | game.js:47-53 | Showing the pause menu stops the loop (clears `gameRunning`) and changes nothing else. |
| `State.HideMenu` | game.js:55-58 | Hiding the menu lets the loop run and changes nothing else. |
| `State.PageLoad` | game.js:7-23 | The loaded page has a full wall, score 0, 4 lives, ball and paddle at the serve, no key held, the start menu shown, and the loop stopped. |
| `Frame.HitBrick` | game.js:147-165 | A brick is destroyed only if it is standing and holds the ball centre strictly; then the score rises by exactly 1 and `vy` is reversed. A destroyed brick never scores. Score plus standing bricks is preserved, and the game is won when the score becomes 45. |
| `Frame.ScanColumn` | game.js:146-166 | Scanning the rows from r down destroys exactly the standing bricks of that column that hold the ball. There is at most one such brick: then the score rises by 1 and `vy` flips, and otherwise nothing changes. Score plus standing bricks is preserved. |
| `Frame.ScanGrid` | game.js:145-168 | Scanning the columns from c rightwards destroys exactly the standing bricks that hold the ball. No brick is restored and the score rises by 0 or 1: by 1, with `vy` flipped, exactly when some standing brick holds the ball; otherwise the state is unchanged. |
| `Frame.CollisionDetection` | game.js:144-169 | After the scan a brick stands exactly when it stood and does not hold the ball, so no brick is restored. Score plus standing bricks is unchanged, and the score rises by 0 or 1. A hit adds exactly 1 and reverses `vy`. The outcome becomes Won exactly when a hit brings the score to 45. |
| `Frame.MoveBall` | game.js:221-223 | The ball advances by exactly one step of its velocity, and nothing else changes. |
| `Frame.WallBounce` | game.js:226-228 | `vx` is reversed exactly when the moved position plus `vx` exceeds 790 or falls below 10; nothing else changes. |
| `Frame.VerticalRule` | game.js:229-251 | Top bounce, else bottom rule. Over the paddle (strictly) `vy` flips. On a miss lives drop by exactly 1, and the game is lost when it had at most 1 life; otherwise ball and paddle are served again. Score, bricks, keys and run state never change. |
| `Frame.MovePaddle` | game.js:253-258 | The paddle moves +8 exactly when right is held and it is left of 700. It moves -8 exactly when that does not apply, left is held and it is right of 0. Otherwise it stays. Right has priority, and nothing else changes. |
| `Frame.AfterScan` | game.js:221-258 | Movement, walls, bottom edge and paddle leave score and bricks alone, lose at most one life, keep the key and run state, and end the game only as Lost with no lives left. |
| `Frame.Tick` | game.js:208-261 | A frame does nothing when the loop is stopped, paused or the game is over. Otherwise it preserves score plus standing bricks, raises the score by at most 1, and loses at most 1 life. It never restores a brick, leaves keys and run state alone, and ends Won only at 45 points and Lost only at no lives. |
| `Input.KeyDown` | game.js:117-133 | Right/ArrowRight and Left/ArrowLeft set only their flag, and other keys change nothing. Space/Spacebar is ignored while the loop is stopped; on a running, unpaused game it pauses and shows the pause menu, which stops the loop; on a running, paused game it hides the menu and runs one frame, the same as clicking resume. |
| `Input.KeyUp` | game.js:135-141 | Releasing a movement key clears only its flag; every other key changes nothing. |
| `Input.StartGame` | game.js:66-74 | Starting runs the loop with score 0, 4 lives and the wall untouched. Its immediate first frame hits no brick and reaches no edge: the ball is one step from the serve at (405, 565). |
| `Input.ResumeGame` | game.js:60-64 | Resuming clears the pause, hides the menu and runs one frame, which never lowers the score or raises the lives. |
| `Input.ServeMissesBricks` | game.js:85-86 | No brick holds the ball at its serve position. |
| `Input.FirstFrame` | game.js:73 | The frame right after a serve only moves the ball one step and the paddle. |
| `Input.MenusStopTheLoop` | game.js:39-58 | While the start or pause menu is shown a frame changes nothing. Hiding the pause menu of a game that was running restores it exactly. |
| `Input.PressRelease` | game.js:117-141 | Pressing then releasing a movement key equals releasing it, and restores the state when no key was held. |
| `Input.PauseThenResume` | game.js:122-131 | Pausing a running game with the pause key and then clicking resume gives exactly the frame the game would have run unpaused. |
| `Input.PauseFreezes` | game.js:122-131 | Once paused by the pause key, frames change nothing and a second press of the pause key is ignored. |
| `Invariant.PaddleBounds` | game.js:254-258 | A paddle on its track (within one step of the edges, at 350 plus a multiple of 8) lies in [-2, 702]. |
| `Invariant.UnpauseUnreachable` | game.js:123-129 | No invariant state is both running and paused, so the pause key of a running game always pauses it and shows the pause menu. |
| `Invariant.InitialInv` | game.js:101-107 | The loaded page satisfies the invariant: score plus standing bricks is 45, speeds are 5, and ball and paddle are in range. |
| `Invariant.WonIffCleared` | game.js:160-164 | In every invariant state the game is won exactly when no brick is left standing. |
| `Invariant.CollisionKeepsInv` | game.js:144-169 | The brick scan keeps the invariant; a hit happens only in the brick band, where reversing `vy` keeps the ball's next position in the field. |
| `Invariant.AfterScanKeepsInv` | game.js:221-258 | Ball movement, the wall rules and the paddle movement keep both speeds at 5, the ball within [10, 790] × [10, 590], and the paddle on its track. |
| `Invariant.TickKeepsInv` | game.js:208-261 | Every frame keeps the invariant. |
| `Invariant.KeyDownKeepsInv` | game.js:117-133 | Every key press keeps the invariant. |
| `Invariant.KeyUpKeepsInv` | game.js:135-141 | Every key release keeps the invariant. |
| `Invariant.StartGameKeepsInv` | game.js:66-90 | Starting from the start menu keeps the invariant; the start menu is only shown with a full wall, which the reset relies on. |
| `Invariant.ResumeGameKeepsInv` | game.js:60-64 | Resuming keeps the invariant. |
| `Session.StepKeepsInv` | game.js:208-261 | Every enabled event keeps the invariant. |
| `Session.RunKeepsInv` | game.js:208-261 | Every run of enabled events keeps the invariant. |
| `Session.ReachableInv` | game.js:8-23 | Every state reachable from the loaded page has score + standing bricks = 45 and \|vx\| = \|vy\| = 5. The ball stays within [10, 790] × [10, 590] and the paddle in (-8, 708). The game is won exactly at score 45 and lost exactly at 0 lives. |
| `Session.TickProgress` | game.js:155-157 | A frame raises the score by at most 1, and only by the number of bricks it destroys; it loses at most one life and never restores a brick. |
| `Session.KeyDownProgress` | game.js:117-133 | A key press raises the score by at most 1, and only by destroying a brick; it loses at most one life and never restores a brick. |
| `Session.KeyUpProgress` | game.js:135-141 | A key release changes neither score, lives nor bricks. |
| `Session.ResumeProgress` | game.js:60-64 | Resuming raises the score by at most 1, and only by destroying a brick; it loses at most one life and never restores a brick. |
| `Session.StartProgress` | game.js:66-74 | Starting from the start menu keeps score, lives and bricks. |
| `Session.StepProgress` | game.js:155-157 | Per enabled event the score never falls and rises by at most 1, exactly by the number of bricks destroyed. Lives never rise and fall by at most 1, and a destroyed brick stays destroyed. |
| `Session.KeyDownFinished` | game.js:117-133 | After a win or a loss, a key press changes neither outcome, score, lives, bricks nor ball. |
| `Session.ResumeFinished` | game.js:60-64 | After a win or a loss, resuming runs no frame: outcome, score, lives, bricks and ball stay. |
| `Session.FinishedIsFinal` | game.js:161-164 | Once won or lost, no event changes the outcome, score, lives, bricks or ball. |
| `Session.BelowWallNoHit` | game.js:144-169 | Below the wall the brick scan changes nothing. |
| `Session.PaddleBounce` | game.js:233-234 | A ball landing over the centred paddle bounces back up with no life lost. |
| `Session.PaddleMiss` | game.js:235-249 | A ball landing beside the centred paddle costs exactly one life and is served again. |

## Left out

- Rendering is not modelled: `drawBall`, `drawPaddle`, the drawing calls of
  `drawBricks`, `drawPauseText` and every `ctx` call. None of them changes game
  state. The brick positions that `drawBricks` stores before every scan are the
  pure functions `BrickX` and `BrickY`.
- DOM output is not modelled: the text of the score and lives elements and
  the style of the menu and its buttons. The model keeps only which menu is
  shown (`menu`), because that decides which button can be clicked.
- `alert` and `document.location.reload()` become the outcomes `Won` and
  `Lost`. The script goes on with the rest of that frame before the page
  reloads. Its effects are discarded by the reload, so `Tick` stops at the
  outcome and runs no further frame of a finished game. The page after a
  reload is `PageLoad`.
- `exitGame` is not modelled: it only navigates the browser away.
- `requestAnimationFrame` scheduling and listener registration are not
  modelled. Each animation frame is one `NextFrame` event. Pausing and
  resuming within a single frame can leave two loops scheduled. Such extra
  frames are just more `NextFrame` events, which a run may contain at any
  time.
- The canvas size before `startGame` is not modelled. The page-load
  `resetGame` (game.js:274) runs while the canvas still has the browser's
  default size. The model uses 800 × 600 throughout, and `startGame` serves
  again before any frame runs.
- JavaScript numbers are doubles. Every value the game computes is a small
  integer, so unbounded `int` is exact.
